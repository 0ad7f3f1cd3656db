/** paddm_get_first_clear_bits: what the skipping search returns, and what it should return. */
module FrameSearch {
  import opened FrameBitmap

  datatype Flags = Flags(align64kb: bool, lowMem: bool, contiguous: bool, pageAllocNum: nat)

  // Stopped at a frame, or went on with this many free frames counted since base.
  datatype Step = Found(frame: nat) | Go(num: nat, base: nat)

  // The frames of superblock s from its frame number bit on.
  function ScanBits(w: Page, s: nat, bit: nat, n: nat, num: nat, base: nat): Step
    requires s < 256 && bit <= 16
    decreases 16 - bit
  {
    if bit == 16 then Go(num, base)
    else if Taken(w, 16 * s + bit) then ScanBits(w, s, bit + 1, n, 0, base)
    else
      var base := if num == 0 then 16 * s + bit else base;
      if num + 1 >= n then Found(base) else ScanBits(w, s, bit + 1, n, num + 1, base)
  }

  // A superblock is passed over when it is marked, or when the word its frames are in is full.
  predicate Skipped(w: Page, s: nat)
    requires s < 256
  {
    Marked(w, s) || Full(w[s / 2])
  }

  function ScanSuper(w: Page, s: nat, flags: Flags, num: nat, base: nat): Step
    requires s < 256
  {
    var step := if Skipped(w, s) then Go(num, base) else ScanBits(w, s, 0, flags.pageAllocNum, num, base);
    if step.Go? && flags.align64kb then Go(0, 0) else step
  }

  // The word of the superblock bitmap that superblock s is in, counted up.
  function SuperWord(s: nat): (q: nat)
    ensures 32 * q <= s < 32 * q + 32
  {
    if s < 32 then 0 else 1 + SuperWord(s - 32)
  }

  // At the first superblock of a word of the superblock bitmap that is full.
  predicate FullWordAt(w: Page, s: nat)
    requires s < 256
  {
    s == 32 * SuperWord(s) && Full(w[128 + SuperWord(s)])
  }

  // low_mem gives up behind these superblocks: past number 15 of the first word.
  predicate GivesUp(s: nat, flags: Flags) {
    flags.lowMem && 15 < s < 32
  }

  // The superblocks from s on; a full word of the superblock bitmap passes over all 32 of its superblocks.
  function ScanFrom(w: Page, s: nat, flags: Flags, num: nat, base: nat): int
    requires s <= 256
    decreases 256 - s, 1
  {
    if s == 256 then -1
    else if FullWordAt(w, s) then ScanFrom(w, s + 32, flags, num, base)
    else AfterSuper(w, s, flags, ScanSuper(w, s, flags, num, base))
  }

  // What the search answers once superblock s has been looked at.
  function AfterSuper(w: Page, s: nat, flags: Flags, step: Step): int
    requires s < 256
    decreases 256 - s, 0
  {
    match step
    case Found(f) => f
    case Go(num, base) => if GivesUp(s, flags) then -1 else ScanFrom(w, s + 1, flags, num, base)
  }

  function Search(w: Page, flags: Flags): int {
    if flags.pageAllocNum == 0 && flags.contiguous then -1 else ScanFrom(w, 0, flags, 0, 0)
  }

  lemma {:induction false} PassesOver(w: Page, s: nat, flags: Flags, num: nat, base: nat)
    requires s < 256 && FullWordAt(w, s)
    ensures ScanFrom(w, s, flags, num, base) == ScanFrom(w, s + 32, flags, num, base)
  {
  }

  lemma {:induction false} LooksInto(w: Page, s: nat, flags: Flags, num: nat, base: nat)
    requires s < 256 && !FullWordAt(w, s)
    ensures var step := ScanSuper(w, s, flags, num, base);
            ScanFrom(w, s, flags, num, base) ==
            if step.Found? then step.frame
            else if GivesUp(s, flags) then -1
            else ScanFrom(w, s + 1, flags, step.num, step.base)
  {
    assert ScanFrom(w, s, flags, num, base) == AfterSuper(w, s, flags, ScanSuper(w, s, flags, num, base));
  }

  lemma {:induction false} ScanBitsInRange(w: Page, s: nat, bit: nat, n: nat, num: nat, base: nat)
    requires s < 256 && bit <= 16 && (num > 0 ==> base < 4096 && !Taken(w, base))
    ensures match ScanBits(w, s, bit, n, num, base)
            case Found(r) => r < 4096 && !Taken(w, r)
            case Go(num, base) => num > 0 ==> base < 4096 && !Taken(w, base)
    decreases 16 - bit
  {
    if bit < 16 {
      if Taken(w, 16 * s + bit) {
        ScanBitsInRange(w, s, bit + 1, n, 0, base);
      } else if num + 1 < n {
        ScanBitsInRange(w, s, bit + 1, n, num + 1, if num == 0 then 16 * s + bit else base);
      }
    }
  }

  lemma {:induction false} ScanSuperInRange(w: Page, s: nat, flags: Flags, num: nat, base: nat)
    requires s < 256 && (num > 0 ==> base < 4096 && !Taken(w, base))
    ensures match ScanSuper(w, s, flags, num, base)
            case Found(r) => r < 4096 && !Taken(w, r)
            case Go(num, base) => num > 0 ==> base < 4096 && !Taken(w, base)
  {
    ScanBitsInRange(w, s, 0, flags.pageAllocNum, num, base);
  }

  ghost predicate FreeOrNone(w: Page, r: int) {
    r == -1 || (0 <= r < 4096 && !Taken(w, r))
  }

  ghost predicate FindsFree(w: Page, s: nat, flags: Flags, num: nat, base: nat)
    requires s <= 256
  {
    FreeOrNone(w, ScanFrom(w, s, flags, num, base))
  }

  lemma {:induction false} FreePassed(w: Page, s: nat, flags: Flags, num: nat, base: nat)
    requires s < 256 && FullWordAt(w, s) && FindsFree(w, s + 32, flags, num, base)
    ensures FindsFree(w, s, flags, num, base)
  {
    PassesOver(w, s, flags, num, base);
  }

  lemma {:induction false} FreeLooked(w: Page, s: nat, flags: Flags, num: nat, base: nat, step: Step)
    requires s < 256 && !FullWordAt(w, s) && (num > 0 ==> base < 4096 && !Taken(w, base))
    requires step == ScanSuper(w, s, flags, num, base)
    requires step.Go? ==> FindsFree(w, s + 1, flags, step.num, step.base)
    ensures FindsFree(w, s, flags, num, base)
  {
    ScanSuperInRange(w, s, flags, num, base);
    LooksInto(w, s, flags, num, base);
  }

  lemma {:induction false} ScanFromInRange(w: Page, s: nat, flags: Flags, num: nat, base: nat)
    requires s <= 256 && (num > 0 ==> base < 4096 && !Taken(w, base))
    ensures FindsFree(w, s, flags, num, base)
    decreases 256 - s
  {
    if s == 256 { return; }
    if FullWordAt(w, s) {
      ScanFromInRange(w, s + 32, flags, num, base);
      FreePassed(w, s, flags, num, base);
    } else {
      var step := ScanSuper(w, s, flags, num, base);
      ScanSuperInRange(w, s, flags, num, base);
      if step.Go? { ScanFromInRange(w, s + 1, flags, step.num, step.base); }
      FreeLooked(w, s, flags, num, base, step);
    }
  }

  // Whatever the flags, the frame returned is a free one.
  lemma {:induction false} SearchInRange(w: Page, flags: Flags)
    ensures var r := Search(w, flags); r == -1 || (0 <= r < 4096 && !Taken(w, r))
  {
    ScanFromInRange(w, 0, flags, 0, 0);
  }

  // ------------------------------------------------------------ one frame

  // The plain scan of all frames, with no summary to skip by.
  function Lowest(w: Page, f: nat): int
    requires f <= 4096
    decreases 4096 - f
  {
    if f == 4096 then -1 else if !Taken(w, f) then f else Lowest(w, f + 1)
  }

  lemma {:induction false} LowestIsLeast(w: Page, f: nat)
    requires f <= 4096
    ensures var r := Lowest(w, f);
            if r == -1 then forall g: nat | f <= g < 4096 :: Taken(w, g)
            else f <= r < 4096 && !Taken(w, r) && forall g: nat | f <= g < r :: Taken(w, g)
    decreases 4096 - f
  {
    if f < 4096 && Taken(w, f) { LowestIsLeast(w, f + 1); }
  }

  lemma {:induction false} LowestSkips(w: Page, f: nat, g: nat)
    requires f <= g <= 4096 && (forall h: nat | f <= h < g :: Taken(w, h))
    ensures Lowest(w, f) == Lowest(w, g)
    decreases g - f
  {
    if f < g { LowestSkips(w, f + 1, g); }
  }

  lemma {:induction false} LowestInRange(w: Page, f: nat)
    requires f <= 4096
    ensures Lowest(w, f) == -1 || f <= Lowest(w, f) < 4096
    decreases 4096 - f
  {
    if f < 4096 { LowestInRange(w, f + 1); }
  }

  lemma {:induction false} SkippedIsTaken(w: Page, s: nat)
    requires SummarySound(w) && s < 256 && Skipped(w, s)
    ensures AllTaken(w, s)
  {
    if Full(w[s / 2]) {
      forall f: nat | 16 * s <= f < 16 * s + 16 ensures Taken(w, f) {
        assert f / 32 == s / 2;
      }
    }
  }

  lemma {:induction false} FullSummaryWordIsTaken(w: Page, s: nat)
    requires SummarySound(w) && s < 256 && FullWordAt(w, s)
    ensures forall f: nat | 16 * s <= f < 16 * (s + 32) :: Taken(w, f)
  {
    forall f: nat | 16 * s <= f < 16 * (s + 32) ensures Taken(w, f) {
      assert (f / 16) / 32 == s / 32;
      assert Marked(w, f / 16);
      assert AllTaken(w, f / 16);
    }
  }

  lemma {:induction false} ScanBitsOne(w: Page, s: nat, bit: nat, n: nat, base: nat)
    requires s < 256 && bit <= 16 && n <= 1
    ensures var step := ScanBits(w, s, bit, n, 0, base);
            var r := Lowest(w, 16 * s + bit);
            match step
            case Found(f) => f == r && 16 * s + bit <= f < 16 * s + 16
            case Go(num, _) => num == 0 && r == Lowest(w, 16 * (s + 1))
    decreases 16 - bit
  {
    if bit < 16 && Taken(w, 16 * s + bit) {
      ScanBitsOne(w, s, bit + 1, n, base);
    }
  }

  lemma {:induction false} LowestOverSuper(w: Page, s: nat, t: nat)
    requires s <= t <= 256 && (forall f: nat | 16 * s <= f < 16 * t :: Taken(w, f))
    ensures Lowest(w, 16 * s) == Lowest(w, 16 * t)
  {
    LowestSkips(w, 16 * s, 16 * t);
  }

  ghost predicate OneFound(w: Page, s: nat, step: Step)
    requires s < 256
  {
    var r := Lowest(w, 16 * s);
    match step
    case Found(f) => f == r && 16 * s <= f < 16 * s + 16
    case Go(num, _) => num == 0 && r == Lowest(w, 16 * (s + 1))
  }

  lemma {:induction false} SkipOne(w: Page, s: nat, base: nat)
    requires SummarySound(w) && s < 256 && Skipped(w, s)
    ensures OneFound(w, s, Go(0, base))
  {
    SkippedIsTaken(w, s);
    LowestOverSuper(w, s, s + 1);
  }

  // One superblock, one frame asked for: stop at its lowest free frame, or go on with nothing counted.
  lemma {:induction false} ScanSuperOne(w: Page, s: nat, flags: Flags, base: nat)
    requires SummarySound(w) && s < 256 && flags.pageAllocNum <= 1
    ensures OneFound(w, s, ScanSuper(w, s, flags, 0, base))
  {
    if Skipped(w, s) {
      SkipOne(w, s, base);
    } else {
      ScanBitsOne(w, s, 0, flags.pageAllocNum, base);
    }
  }

  ghost predicate FindsLowest(w: Page, s: nat, flags: Flags, base: nat)
    requires s <= 256
  {
    ScanFrom(w, s, flags, 0, base) == Lowest(w, 16 * s)
  }

  lemma {:induction false} OnePassed(w: Page, s: nat, flags: Flags, base: nat)
    requires SummarySound(w) && s < 256 && FullWordAt(w, s) && FindsLowest(w, s + 32, flags, base)
    ensures FindsLowest(w, s, flags, base)
  {
    PassesOver(w, s, flags, 0, base);
    FullSummaryWordIsTaken(w, s);
    LowestOverSuper(w, s, s + 32);
  }

  lemma {:induction false} OneLooked(w: Page, s: nat, flags: Flags, base: nat, step: Step)
    requires SummarySound(w) && s < 256 && flags.pageAllocNum <= 1 && !GivesUp(s, flags) && !FullWordAt(w, s)
    requires step == ScanSuper(w, s, flags, 0, base) && (step.Go? ==> FindsLowest(w, s + 1, flags, step.base))
    ensures FindsLowest(w, s, flags, base)
  {
    LooksInto(w, s, flags, 0, base);
    ScanSuperOne(w, s, flags, base);
  }

  lemma {:induction false} ScanFromOne(w: Page, s: nat, flags: Flags, base: nat)
    requires SummarySound(w) && s <= 256 && flags.pageAllocNum <= 1 && (flags.lowMem ==> s >= 32)
    ensures FindsLowest(w, s, flags, base)
    decreases 256 - s
  {
    if s == 256 { return; }
    if FullWordAt(w, s) {
      ScanFromOne(w, s + 32, flags, base);
      OnePassed(w, s, flags, base);
    } else {
      var step := ScanSuper(w, s, flags, 0, base);
      if step.Go? { ScanFromOne(w, s + 1, flags, step.base); }
      OneLooked(w, s, flags, base, step);
    }
  }

  // For one frame the skipping search finds exactly what a scan of all 4096 frames would.
  lemma {:induction false} SearchIsLowest(w: Page, flags: Flags)
    requires SummarySound(w) && flags.pageAllocNum <= 1 && !flags.lowMem
    requires !(flags.pageAllocNum == 0 && flags.contiguous)
    ensures Search(w, flags) == Lowest(w, 0)
    ensures Search(w, flags) == -1 <==> FreeFrames(w) == {}
  {
    ScanFromOne(w, 0, flags, 0);
    LowestIsLeast(w, 0);
    if FreeFrames(w) == {} {
      assert forall f: nat | f < 4096 && !Taken(w, f) :: f in FreeFrames(w);
    }
  }

  // ------------------------------------------------------------ the low-memory flag

  lemma {:induction false} LowMemScan(w: Page, s: nat, flags: Flags, base: nat)
    requires SummarySound(w) && s <= 16 && flags.pageAllocNum <= 1 && flags.lowMem && !Full(w[128])
    ensures var r := Lowest(w, 16 * s); ScanFrom(w, s, flags, 0, base) == if r < 272 then r else -1
    decreases 16 - s
  {
    ScanSuperOne(w, s, flags, base);
    LowestInRange(w, 16 * (s + 1));
    var step := ScanSuper(w, s, flags, 0, base);
    if step.Go? && s < 16 { LowMemScan(w, s + 1, flags, step.base); }
  }

  // What low_mem really does: it gives up after frame 271, but only when the first 512 frames are not
  // all marked; then it is no limit at all.
  lemma {:induction false} LowMemExactly(w: Page, flags: Flags)
    requires SummarySound(w) && flags.pageAllocNum <= 1 && flags.lowMem
    requires !(flags.pageAllocNum == 0 && flags.contiguous)
    ensures var r := Lowest(w, 0);
            Search(w, flags) == if Full(w[128]) || r < 272 then r else -1
  {
    if Full(w[128]) {
      FullSummaryWordIsTaken(w, 0);
      LowestOverSuper(w, 0, 32);
      ScanFromOne(w, 32, flags, 0);
    } else {
      LowMemScan(w, 0, flags, 0);
    }
  }

  // A frame below 1 MiB, or none when none is free: low_mem keeps this promise exactly when such a
  // frame exists, or the frames it may wrongly give instead are taken too.
  lemma {:induction false} LowMemKeepsPromiseExactly(w: Page, flags: Flags)
    requires SummarySound(w) && flags.pageAllocNum <= 1 && flags.lowMem
    requires !(flags.pageAllocNum == 0 && flags.contiguous)
    ensures var r := Search(w, flags);
            (if exists f: nat :: f < 256 && !Taken(w, f) then 0 <= r < 256 && !Taken(w, r) else r == -1) <==>
            (|| (exists f: nat :: f < 256 && !Taken(w, f))
             || ((forall f: nat | 256 <= f < 272 :: Taken(w, f))
                 && (Full(w[128]) ==> forall f: nat | 272 <= f < 4096 :: Taken(w, f))))
  {
    LowMemExactly(w, flags);
    LowestIsLeast(w, 0);
  }

  // All frames taken and marked, then frame 256 freed: asked for a frame below 1 MiB the search answers it.
  lemma {:induction false} LowMemCanFail(all: Page)
    requires forall k: nat | k < 136 :: Full(all[k])
    ensures var w := ClearBit(all, 256);
            SummarySound(w) && FreeFrames(w) == {256} && Search(w, Flags(false, true, false, 1)) == 256
  {
    var w, flags := ClearBit(all, 256), Flags(false, true, false, 1);
    AllFullIsSound(all);
    ClearKeepsSummary(all, 256);
    ClearFreesOne(all, 256);
    assert FreeFrames(all) == {};
    forall f: nat | f < 256 ensures Taken(w, f) { TakenAfterClear(all, 256, f); }
    TakenAfterClear(all, 256, 256);
    LowestSkips(w, 0, 256);
    LowMemExactly(w, flags);
  }

  // ------------------------------------------------------------ runs inside one superblock

  // n free frames from r on, all in the same 64 KiB superblock.
  ghost predicate RunAt(w: Page, r: nat, n: nat) {
    r < 4096 && r % 16 + n <= 16 && forall f: nat | r <= f < r + n && f < 4096 :: !Taken(w, f)
  }

  // No run of n starts in [lo, hi).
  ghost predicate NoRuns(w: Page, n: nat, lo: nat, hi: nat) {
    forall q: nat | lo <= q < hi :: !RunAt(w, q, n)
  }

  ghost predicate AllFree(w: Page, lo: nat, hi: nat)
    requires hi <= 4096
  {
    forall f: nat | lo <= f < hi :: !Taken(w, f)
  }

  lemma {:induction false} TakenHasNoRuns(w: Page, n: nat, lo: nat, hi: nat)
    requires n >= 1 && hi <= 4096 && (forall f: nat | lo <= f < hi :: Taken(w, f))
    ensures NoRuns(w, n, lo, hi)
  {
    forall q: nat | lo <= q < hi ensures !RunAt(w, q, n) { NoRunAcross(w, q, n, q); }
  }

  lemma {:induction false} NoRunAcross(w: Page, f: nat, n: nat, q: nat)
    requires f < 4096 && Taken(w, f) && q <= f < q + n
    ensures !RunAt(w, q, n)
  {
  }

  lemma {:induction false} NoRoom(w: Page, s: nat, n: nat, q: nat)
    requires s < 256 && q < 16 * s + 16 < q + n && 16 * s <= q
    ensures !RunAt(w, q, n)
  {
    assert q % 16 == q - 16 * s;
  }

  // Standing before frame cur of superblock s: the num frames counted, from base on, are the last num frames,
  // all free, and no run starts in front of them.
  ghost predicate RunTracks(w: Page, s: nat, n: nat, cur: nat, num: nat, base: nat) {
    && 16 * s <= cur - num && cur <= 16 * s + 16 <= 4096 && num < n && (num > 0 ==> base == cur - num)
    && AllFree(w, cur - num, cur) && NoRuns(w, n, 16 * s, cur - num)
  }

  // A taken frame ends every run that would reach it.
  lemma {:induction false} RunBreaksHere(w: Page, s: nat, n: nat, cur: nat, num: nat, base: nat)
    requires RunTracks(w, s, n, cur, num, base) && cur < 16 * s + 16 && Taken(w, cur)
    ensures RunTracks(w, s, n, cur + 1, 0, base)
  {
    forall q: nat | 16 * s <= q < cur + 1 ensures !RunAt(w, q, n) {
      if q >= cur - num { NoRunAcross(w, cur, n, q); }
    }
  }

  // A free one is counted, or is the last of the first run.
  lemma {:induction false} RunGoesOn(w: Page, s: nat, n: nat, cur: nat, num: nat, base: nat)
    requires RunTracks(w, s, n, cur, num, base) && cur < 16 * s + 16 && !Taken(w, cur)
    ensures var b := if num == 0 then cur else base;
            if num + 1 < n then RunTracks(w, s, n, cur + 1, num + 1, b) else FirstRun(w, n, 16 * s, 16 * s + 16, b)
  {
    var b := cur - num;
    if num + 1 >= n { assert (16 * s + (b - 16 * s)) % 16 == b - 16 * s; }
  }

  // The end of the superblock ends every run.
  lemma {:induction false} RunBreaksAtEnd(w: Page, s: nat, n: nat, num: nat, base: nat)
    requires s < 256 && RunTracks(w, s, n, 16 * s + 16, num, base)
    ensures NoRuns(w, n, 16 * s, 16 * s + 16)
  {
    forall q: nat | 16 * s <= q < 16 * s + 16 ensures !RunAt(w, q, n) {
      if q >= 16 * s + 16 - num { NoRoom(w, s, n, q); }
    }
  }

  // Stopped at the first run of superblock s, or past it without one.
  ghost predicate RunSought(w: Page, n: nat, s: nat, step: Step) {
    match step
    case Found(r) => FirstRun(w, n, 16 * s, 16 * s + 16, r)
    case Go(_, _) => NoRuns(w, n, 16 * s, 16 * (s + 1))
  }

  // One frame: the first run ends here, or the scan goes on with what was counted.
  lemma {:induction false} RunNext(w: Page, s: nat, bit: nat, n: nat, num: nat, base: nat)
    returns (done: bool, num': nat, base': nat)
    requires s < 256 && bit < 16 && RunTracks(w, s, n, 16 * s + bit, num, base)
    ensures done ==> ScanBits(w, s, bit, n, num, base) == Found(base') && FirstRun(w, n, 16 * s, 16 * s + 16, base')
    ensures !done ==>
              && RunTracks(w, s, n, 16 * s + (bit + 1), num', base')
              && ScanBits(w, s, bit, n, num, base) == ScanBits(w, s, bit + 1, n, num', base')
  {
    if Taken(w, 16 * s + bit) {
      RunBreaksHere(w, s, n, 16 * s + bit, num, base);
      done, num', base' := false, 0, base;
    } else {
      RunGoesOn(w, s, n, 16 * s + bit, num, base);
      done, num', base' := num + 1 >= n, num + 1, if num == 0 then 16 * s + bit else base;
    }
  }

  lemma {:induction false} ScanBitsRun(w: Page, s: nat, bit: nat, n: nat, num: nat, base: nat)
    requires s < 256 && bit <= 16 && RunTracks(w, s, n, 16 * s + bit, num, base)
    ensures RunSought(w, n, s, ScanBits(w, s, bit, n, num, base))
    decreases 16 - bit
  {
    if bit == 16 {
      RunBreaksAtEnd(w, s, n, num, base);
    } else {
      var done, num', base' := RunNext(w, s, bit, n, num, base);
      if !done { ScanBitsRun(w, s, bit + 1, n, num', base'); }
    }
  }

  // r is the first run of n from lo on, or -1 when none starts below hi.
  ghost predicate FirstRun(w: Page, n: nat, lo: nat, hi: nat, r: int) {
    if r == -1 then NoRuns(w, n, lo, hi) else lo <= r < hi && RunAt(w, r, n) && NoRuns(w, n, lo, r)
  }

  lemma {:induction false} FirstRunFurther(w: Page, n: nat, lo: nat, mid: nat, hi: nat, r: int)
    requires lo <= mid && NoRuns(w, n, lo, mid) && FirstRun(w, n, mid, hi, r)
    ensures FirstRun(w, n, lo, hi, r)
  {
  }

  lemma {:induction false} ScanSuperRun(w: Page, s: nat, flags: Flags, base: nat)
    requires SummarySound(w) && s < 256 && flags.align64kb && flags.pageAllocNum >= 1
    ensures var step := ScanSuper(w, s, flags, 0, base);
            RunSought(w, flags.pageAllocNum, s, step) && (step.Go? ==> step.num == 0)
  {
    if Skipped(w, s) {
      SkippedIsTaken(w, s);
      TakenHasNoRuns(w, flags.pageAllocNum, 16 * s, 16 * (s + 1));
    } else {
      ScanBitsRun(w, s, 0, flags.pageAllocNum, 0, base);
    }
  }

  lemma {:induction false} FullWordHasNoRuns(w: Page, n: nat, s: nat)
    requires SummarySound(w) && n >= 1 && s < 256 && FullWordAt(w, s)
    ensures NoRuns(w, n, 16 * s, 16 * (s + 32))
  {
    FullSummaryWordIsTaken(w, s);
    TakenHasNoRuns(w, n, 16 * s, 16 * (s + 32));
  }

  // How far a search from superblock s on looks: low_mem stops it behind frame 271 if it gets there.
  function Limit(s: nat, flags: Flags): nat {
    if flags.lowMem && s <= 16 then 272 else 4096
  }

  // The superblocks a search can stand at: under low_mem it never passes from 16 to 17, and it jumps
  // from 0 to 32 when the first 512 frames are all marked.
  ghost predicate Standing(w: Page, s: nat, flags: Flags) {
    s <= 256 && (flags.lowMem ==> s >= 32 || (s <= 16 && !Full(w[128])))
  }

  lemma {:induction false} StandsOn(w: Page, s: nat, flags: Flags)
    requires Standing(w, s, flags) && s < 256
    ensures FullWordAt(w, s) ==> Standing(w, s + 32, flags) && Limit(s + 32, flags) == Limit(s, flags)
    ensures GivesUp(s, flags) ==> Limit(s, flags) == 16 * (s + 1)
    ensures !GivesUp(s, flags) ==> Standing(w, s + 1, flags) && Limit(s + 1, flags) == Limit(s, flags)
    ensures 16 * (s + 1) <= Limit(s, flags)
  {
  }

  ghost predicate FindsRun(w: Page, s: nat, flags: Flags, hi: nat, base: nat)
    requires s <= 256
  {
    FirstRun(w, flags.pageAllocNum, 16 * s, hi, ScanFrom(w, s, flags, 0, base))
  }

  lemma {:induction false} PassedRun(w: Page, s: nat, flags: Flags, hi: nat, base: nat)
    requires SummarySound(w) && s < 256 && flags.pageAllocNum >= 1 && FullWordAt(w, s)
    requires FindsRun(w, s + 32, flags, hi, base)
    ensures FindsRun(w, s, flags, hi, base)
  {
    PassesOver(w, s, flags, 0, base);
    FullWordHasNoRuns(w, flags.pageAllocNum, s);
    FirstRunFurther(w, flags.pageAllocNum, 16 * s, 16 * (s + 32), hi, ScanFrom(w, s, flags, 0, base));
  }

  lemma {:induction false} LookedRun(w: Page, s: nat, flags: Flags, hi: nat, base: nat, step: Step)
    requires SummarySound(w) && s < 256 && flags.align64kb && flags.pageAllocNum >= 1 && !FullWordAt(w, s)
    requires step == ScanSuper(w, s, flags, 0, base)
    requires 16 * (s + 1) <= hi && (GivesUp(s, flags) ==> hi == 16 * (s + 1))
    requires step.Go? && !GivesUp(s, flags) ==> FindsRun(w, s + 1, flags, hi, step.base)
    ensures FindsRun(w, s, flags, hi, base)
  {
    ScanSuperRun(w, s, flags, base);
    LooksInto(w, s, flags, 0, base);
    if step.Go? && !GivesUp(s, flags) {
      FirstRunFurther(w, flags.pageAllocNum, 16 * s, 16 * (s + 1), hi, ScanFrom(w, s, flags, 0, base));
    }
  }

  lemma {:induction false} ScanFromRun(w: Page, s: nat, flags: Flags, base: nat)
    requires SummarySound(w) && Standing(w, s, flags) && flags.align64kb && flags.pageAllocNum >= 1
    ensures FindsRun(w, s, flags, Limit(s, flags), base)
    decreases 256 - s
  {
    if s == 256 { return; }
    StandsOn(w, s, flags);
    if FullWordAt(w, s) {
      ScanFromRun(w, s + 32, flags, base);
      PassedRun(w, s, flags, Limit(s, flags), base);
    } else {
      var step := ScanSuper(w, s, flags, 0, base);
      if step.Go? && !GivesUp(s, flags) { ScanFromRun(w, s + 1, flags, step.base); }
      LookedRun(w, s, flags, Limit(s, flags), base, step);
    }
  }

  // Where the search as a whole stops looking.
  function SearchLimit(w: Page, flags: Flags): nat {
    if flags.lowMem && !Full(w[128]) then 272 else 4096
  }

  // With align_64kb the search returns the lowest n free frames inside one superblock, and -1 exactly when
  // no superblock it looks at has n consecutive free frames; in particular always for n > 16.
  lemma {:induction false} AlignedSearchIsFirstRun(w: Page, flags: Flags)
    requires SummarySound(w) && flags.align64kb && flags.pageAllocNum >= 1
    ensures var r, n, hi := Search(w, flags), flags.pageAllocNum, SearchLimit(w, flags);
            && (r == -1 <==> forall q: nat | q < hi :: !RunAt(w, q, n))
            && (r != -1 ==> 0 <= r < hi && RunAt(w, r, n) && forall q: nat | q < r :: !RunAt(w, q, n))
            && (n > 16 ==> r == -1)
  {
    if flags.lowMem && Full(w[128]) {
      FullWordHasNoRuns(w, flags.pageAllocNum, 0);
      ScanFromRun(w, 32, flags, 0);
      FirstRunFurther(w, flags.pageAllocNum, 0, 512, 4096, ScanFrom(w, 32, flags, 0, 0));
    } else {
      ScanFromRun(w, 0, flags, 0);
    }
  }
}
