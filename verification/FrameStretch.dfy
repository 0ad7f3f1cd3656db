/** Contiguous requests without align_64kb: which frames the search answers, and when they are all free. */
module FrameStretch {
  import opened FrameBitmap
  import opened FrameSearch

  // What the search makes of a frame: not looked at, taken, or free.
  datatype Kind = Hidden | Busy | Free

  function KindOf(w: Page, f: nat): Kind
    requires f < 4096
  {
    if Skipped(w, f / 16) then Hidden else if Taken(w, f) then Busy else Free
  }

  function View(w: Page): (v: seq<Kind>)
    ensures |v| == 4096
  {
    seq(4096, f requires 0 <= f < 4096 => KindOf(w, f))
  }

  // ------------------------------------------------------------ stretches of a view

  function FreeIn(v: seq<Kind>, lo: nat, hi: nat): nat
    requires hi <= |v|
    decreases hi
  {
    if hi <= lo then 0 else FreeIn(v, lo, hi - 1) + if v[hi - 1] == Free then 1 else 0
  }

  ghost predicate NoneBusy(v: seq<Kind>, lo: nat, hi: nat)
    requires hi <= |v|
  {
    forall f: nat | lo <= f < hi :: v[f] != Busy
  }

  // From the free frame r up to e no frame is seen to be taken, and n are seen to be free.
  ghost predicate Reaches(v: seq<Kind>, r: nat, n: nat, e: nat) {
    r < e <= |v| && v[r] == Free && NoneBusy(v, r, e) && FreeIn(v, r, e) >= n
  }

  ghost predicate Stretch(v: seq<Kind>, r: nat, n: nat, limit: nat) {
    exists e: nat :: e <= limit && Reaches(v, r, n, e)
  }

  lemma {:induction false} FreeInSplit(v: seq<Kind>, lo: nat, mid: nat, hi: nat)
    requires lo <= mid <= hi <= |v|
    ensures FreeIn(v, lo, hi) == FreeIn(v, lo, mid) + FreeIn(v, mid, hi)
    decreases hi
  {
    if mid < hi { FreeInSplit(v, lo, mid, hi - 1); }
  }

  lemma {:induction false} FreeInHidden(v: seq<Kind>, lo: nat, hi: nat)
    requires hi <= |v| && forall f: nat | lo <= f < hi :: v[f] == Hidden
    ensures FreeIn(v, lo, hi) == 0
    decreases hi
  {
    if lo < hi { FreeInHidden(v, lo, hi - 1); }
  }

  lemma {:induction false} FreeInAll(v: seq<Kind>, lo: nat, hi: nat)
    requires lo <= hi <= |v| && forall f: nat | lo <= f < hi :: v[f] == Free
    ensures FreeIn(v, lo, hi) == hi - lo
    decreases hi
  {
    if lo < hi { FreeInAll(v, lo, hi - 1); }
  }

  lemma {:induction false} FreeInPart(v: seq<Kind>, lo: nat, r: nat, e: nat, hi: nat)
    requires lo <= r <= e <= hi <= |v|
    ensures FreeIn(v, r, e) <= FreeIn(v, lo, hi)
  {
    FreeInSplit(v, lo, r, hi);
    FreeInSplit(v, r, e, hi);
  }

  // ------------------------------------------------------------ the running count

  ghost predicate NoneStarts(v: seq<Kind>, n: nat, b: nat) {
    forall q: nat, e: nat | q < b :: !Reaches(v, q, n, e)
  }

  // Standing before frame cur: num free frames were counted since base, with no taken one among those
  // seen, and no stretch of n starts in front of them.
  ghost predicate Tracks(v: seq<Kind>, n: nat, cur: nat, num: nat, base: nat) {
    && cur <= |v| && num < n && NoneStarts(v, n, if num == 0 then cur else base)
    && (num > 0 ==> base < cur && v[base] == Free && NoneBusy(v, base, cur) && FreeIn(v, base, cur) == num)
  }

  lemma {:induction false} TracksHidden(v: seq<Kind>, n: nat, cur: nat, next: nat, num: nat, base: nat)
    requires Tracks(v, n, cur, num, base) && cur <= next <= |v| && forall f: nat | cur <= f < next :: v[f] == Hidden
    ensures Tracks(v, n, next, num, base)
  {
    if num > 0 {
      FreeInSplit(v, base, cur, next);
      FreeInHidden(v, cur, next);
    }
  }

  lemma {:induction false} NoneStartsBehind(v: seq<Kind>, n: nat, cur: nat, num: nat, base: nat, q: nat, e: nat)
    requires Tracks(v, n, cur, num, base) && q < cur && e <= cur
    ensures !Reaches(v, q, n, e)
  {
    if num > 0 && base <= q < e { FreeInPart(v, base, q, e, cur); }
  }

  lemma {:induction false} TracksBusy(v: seq<Kind>, n: nat, cur: nat, num: nat, base: nat, base': nat)
    requires Tracks(v, n, cur, num, base) && cur < |v| && v[cur] == Busy
    ensures Tracks(v, n, cur + 1, 0, base')
  {
    forall q: nat, e: nat | q < cur + 1 ensures !Reaches(v, q, n, e) {
      if q < cur && e <= cur { NoneStartsBehind(v, n, cur, num, base, q, e); }
    }
  }

  lemma {:induction false} TracksFree(v: seq<Kind>, n: nat, cur: nat, num: nat, base: nat)
    requires Tracks(v, n, cur, num, base) && cur < |v| && v[cur] == Free
    ensures var b := if num == 0 then cur else base;
            && NoneStarts(v, n, b)
            && (if num + 1 < n then Tracks(v, n, cur + 1, num + 1, b) else Reaches(v, b, n, cur + 1))
  {
    var b := if num == 0 then cur else base;
    assert FreeIn(v, b, cur + 1) == FreeIn(v, b, cur) + 1;
    assert num == 0 ==> FreeIn(v, b, cur) == 0;
  }

  // The first stretch that ends by limit, or -1 when there is none.
  ghost predicate FirstStretch(v: seq<Kind>, n: nat, limit: nat, r: int) {
    if r == -1 then forall q: nat :: !Stretch(v, q, n, limit)
    else r >= 0 && Stretch(v, r, n, limit) && forall q: nat | q < r :: !Stretch(v, q, n, limit)
  }

  lemma {:induction false} FoundIsFirst(v: seq<Kind>, n: nat, limit: nat, r: nat, e: nat)
    requires NoneStarts(v, n, r) && Reaches(v, r, n, e) && e <= limit
    ensures FirstStretch(v, n, limit, r)
  {
  }

  lemma {:induction false} NothingFound(v: seq<Kind>, n: nat, limit: nat, num: nat, base: nat)
    requires Tracks(v, n, limit, num, base)
    ensures FirstStretch(v, n, limit, -1)
  {
    forall q: nat, e: nat | e <= limit ensures !Reaches(v, q, n, e) {
      if q < limit { NoneStartsBehind(v, n, limit, num, base, q, e); }
    }
  }

  // ------------------------------------------------------------ the search

  // One pass over the kinds of frames, counting the free ones and starting again at a taken one.
  function Scan(v: seq<Kind>, cur: nat, limit: nat, n: nat, num: nat, base: nat): int
    requires limit <= |v|
    decreases limit - cur
  {
    if cur >= limit then -1
    else
      match v[cur]
      case Hidden => Scan(v, cur + 1, limit, n, num, base)
      case Busy => Scan(v, cur + 1, limit, n, 0, base)
      case Free =>
        var base := if num == 0 then cur else base;
        if num + 1 >= n then base else Scan(v, cur + 1, limit, n, num + 1, base)
  }

  // It finds the first stretch.
  lemma {:induction false} ScanFindsFirst(v: seq<Kind>, cur: nat, limit: nat, n: nat, num: nat, base: nat)
    requires cur <= limit <= |v| && Tracks(v, n, cur, num, base)
    ensures FirstStretch(v, n, limit, Scan(v, cur, limit, n, num, base))
    decreases limit - cur
  {
    if cur == limit {
      NothingFound(v, n, limit, num, base);
    } else {
      match v[cur]
      case Hidden =>
        TracksHidden(v, n, cur, cur + 1, num, base);
        ScanFindsFirst(v, cur + 1, limit, n, num, base);
      case Busy =>
        TracksBusy(v, n, cur, num, base, base);
        ScanFindsFirst(v, cur + 1, limit, n, 0, base);
      case Free =>
        var b := if num == 0 then cur else base;
        TracksFree(v, n, cur, num, base);
        if num + 1 < n {
          ScanFindsFirst(v, cur + 1, limit, n, num + 1, b);
        } else {
          FoundIsFirst(v, n, limit, b, cur + 1);
        }
    }
  }

  lemma {:induction false} ScanHidden(v: seq<Kind>, cur: nat, next: nat, limit: nat, n: nat, num: nat, base: nat)
    requires cur <= next <= limit <= |v| && forall f: nat | cur <= f < next :: v[f] == Hidden
    ensures Scan(v, cur, limit, n, num, base) == Scan(v, next, limit, n, num, base)
    decreases next - cur
  {
    if cur < next { ScanHidden(v, cur + 1, next, limit, n, num, base); }
  }

  lemma {:induction false} KindInSuper(w: Page, s: nat, bit: nat)
    requires s < 256 && bit < 16 && !Skipped(w, s)
    ensures View(w)[16 * s + bit] == if Taken(w, 16 * s + bit) then Busy else Free
  {
    assert (16 * s + bit) / 16 == s;
  }

  lemma {:induction false} HiddenSuper(w: Page, s: nat)
    requires s < 256 && Skipped(w, s)
    ensures forall f: nat | 16 * s <= f < 16 * (s + 1) :: View(w)[f] == Hidden
  {
    forall f: nat | 16 * s <= f < 16 * (s + 1) ensures View(w)[f] == Hidden {
      assert f / 16 == s;
    }
  }

  lemma {:induction false} HiddenWord(w: Page, s: nat)
    requires s < 256 && FullWordAt(w, s)
    ensures forall f: nat | 16 * s <= f < 16 * (s + 32) :: View(w)[f] == Hidden
  {
    forall f: nat | 16 * s <= f < 16 * (s + 32) ensures View(w)[f] == Hidden {
      assert f / 16 / 32 == s / 32;
      assert Marked(w, f / 16);
    }
  }

  // The pass from cur on, given where the search stands behind superblock s.
  function ScanAfter(v: seq<Kind>, s: nat, limit: nat, n: nat, step: Step): int
    requires limit <= |v|
  {
    match step
    case Found(r) => r
    case Go(num, base) => Scan(v, 16 * (s + 1), limit, n, num, base)
  }

  // v shows the frames of superblock s as they are.
  ghost predicate Sees(w: Page, v: seq<Kind>, s: nat)
    requires s < 256 && |v| == 4096
  {
    forall bit: nat | bit < 16 :: SeesBit(w, v, s, bit)
  }

  ghost predicate SeesBit(w: Page, v: seq<Kind>, s: nat, bit: nat)
    requires s < 256 && |v| == 4096 && bit < 16
  {
    v[16 * s + bit] == if Taken(w, 16 * s + bit) then Busy else Free
  }

  lemma {:induction false} ScanBitsScans(w: Page, v: seq<Kind>, s: nat, bit: nat, limit: nat, n: nat, num: nat,
                                         base: nat)
    requires s < 256 && bit <= 16 && 16 * (s + 1) <= limit <= |v| == 4096 && Sees(w, v, s)
    ensures Scan(v, 16 * s + bit, limit, n, num, base) == ScanAfter(v, s, limit, n, ScanBits(w, s, bit, n, num, base))
    decreases 16 - bit
  {
    if bit < 16 {
      assert SeesBit(w, v, s, bit);
      if Taken(w, 16 * s + bit) {
        ScanBitsScans(w, v, s, bit + 1, limit, n, 0, base);
      } else if num + 1 < n {
        ScanBitsScans(w, v, s, bit + 1, limit, n, num + 1, if num == 0 then 16 * s + bit else base);
      }
    }
  }

  lemma {:induction false} ScanSuperScans(w: Page, s: nat, flags: Flags, limit: nat, num: nat, base: nat)
    requires s < 256 && !flags.align64kb && 16 * (s + 1) <= limit <= 4096
    ensures Scan(View(w), 16 * s, limit, flags.pageAllocNum, num, base)
            == ScanAfter(View(w), s, limit, flags.pageAllocNum, ScanSuper(w, s, flags, num, base))
  {
    if Skipped(w, s) {
      HiddenSuper(w, s);
      ScanHidden(View(w), 16 * s, 16 * (s + 1), limit, flags.pageAllocNum, num, base);
    } else {
      forall bit: nat | bit < 16 ensures SeesBit(w, View(w), s, bit) { KindInSuper(w, s, bit); }
      ScanBitsScans(w, View(w), s, 0, limit, flags.pageAllocNum, num, base);
    }
  }

  ghost predicate Agree(w: Page, s: nat, flags: Flags, limit: nat, num: nat, base: nat)
    requires s <= 256 && limit <= 4096
  {
    ScanFrom(w, s, flags, num, base) == Scan(View(w), 16 * s, limit, flags.pageAllocNum, num, base)
  }

  lemma {:induction false} AgreePassed(w: Page, s: nat, flags: Flags, limit: nat, num: nat, base: nat)
    requires s < 256 && FullWordAt(w, s) && 16 * (s + 32) <= limit <= 4096 && Agree(w, s + 32, flags, limit, num, base)
    ensures Agree(w, s, flags, limit, num, base)
  {
    PassesOver(w, s, flags, num, base);
    HiddenWord(w, s);
    ScanHidden(View(w), 16 * s, 16 * (s + 32), limit, flags.pageAllocNum, num, base);
  }

  lemma {:induction false} AgreeLooked(w: Page, s: nat, flags: Flags, limit: nat, num: nat, base: nat, step: Step)
    requires s < 256 && !FullWordAt(w, s) && !flags.align64kb && 16 * (s + 1) <= limit <= 4096
    requires step == ScanSuper(w, s, flags, num, base) && (GivesUp(s, flags) ==> limit == 16 * (s + 1))
    requires step.Go? && !GivesUp(s, flags) ==> Agree(w, s + 1, flags, limit, step.num, step.base)
    ensures Agree(w, s, flags, limit, num, base)
  {
    LooksInto(w, s, flags, num, base);
    ScanSuperScans(w, s, flags, limit, num, base);
  }

  // The search over superblocks is that one pass, up to its limit.
  lemma {:induction false} ScanFromScans(w: Page, s: nat, flags: Flags, num: nat, base: nat)
    requires Standing(w, s, flags) && !flags.align64kb
    ensures Agree(w, s, flags, Limit(s, flags), num, base)
    decreases 256 - s
  {
    if s == 256 { return; }
    StandsOn(w, s, flags);
    if FullWordAt(w, s) {
      ScanFromScans(w, s + 32, flags, num, base);
      AgreePassed(w, s, flags, Limit(s, flags), num, base);
    } else {
      var step := ScanSuper(w, s, flags, num, base);
      if step.Go? && !GivesUp(s, flags) { ScanFromScans(w, s + 1, flags, step.num, step.base); }
      AgreeLooked(w, s, flags, Limit(s, flags), num, base, step);
    }
  }

  // Which frame the search answers without align_64kb, for any number of frames and with or without
  // low_mem: where the first stretch starts that has n free frames seen and no taken frame seen, whatever
  // superblocks are passed over in between; and -1 exactly when there is no such stretch.
  lemma {:induction false} UnalignedSearchIsFirstStretch(w: Page, flags: Flags)
    requires !flags.align64kb && flags.pageAllocNum >= 1
    ensures FirstStretch(View(w), flags.pageAllocNum, SearchLimit(w, flags), Search(w, flags))
  {
    var v, n, limit := View(w), flags.pageAllocNum, SearchLimit(w, flags);
    ScanFindsFirst(v, 0, limit, n, 0, 0);
    if flags.lowMem && Full(w[128]) {
      HiddenWord(w, 0);
      ScanHidden(v, 0, 512, limit, n, 0, 0);
      ScanFromScans(w, 32, flags, 0, 0);
    } else {
      ScanFromScans(w, 0, flags, 0, 0);
    }
  }

  // ------------------------------------------------------------ when the frames answered are free

  ghost predicate FreeRun(w: Page, r: nat, n: nat) {
    r + n <= 4096 && forall f: nat | r <= f < r + n :: !Taken(w, f)
  }

  lemma {:induction false} FreeIsSeen(w: Page, f: nat)
    requires SummarySound(w) && f < 4096
    ensures View(w)[f] == Free <==> !Taken(w, f)
  {
    if Skipped(w, f / 16) { SkippedIsTaken(w, f / 16); }
  }

  // A run of n free frames is a stretch.
  lemma {:induction false} FreeRunReaches(w: Page, p: nat, n: nat)
    requires SummarySound(w) && n >= 1 && FreeRun(w, p, n)
    ensures Reaches(View(w), p, n, p + n)
  {
    forall f: nat | p <= f < p + n ensures View(w)[f] == Free { FreeIsSeen(w, f); }
    FreeInAll(View(w), p, p + n);
  }

  // A free run that runs into a stretch makes it start earlier.
  lemma {:induction false} StretchBackwards(v: seq<Kind>, p: nat, r: nat, n: nat, e: nat)
    requires p <= r && Reaches(v, r, n, e) && forall f: nat | p <= f < r :: v[f] == Free
    ensures Reaches(v, p, n, e)
  {
    FreeInPart(v, p, r, e, e);
  }

  lemma {:induction false} FreeRunStretches(w: Page, n: nat, limit: nat, r: nat, p: nat)
    requires SummarySound(w) && n >= 1 && Stretch(View(w), r, n, limit) && p <= r && FreeRun(w, p, n)
    ensures Stretch(View(w), p, n, limit)
  {
    var v := View(w);
    var e: nat :| e <= limit && Reaches(v, r, n, e);
    if p + n <= r {
      FreeRunReaches(w, p, n);
    } else {
      forall f: nat | p <= f < r ensures v[f] == Free { FreeIsSeen(w, f); }
      StretchBackwards(v, p, r, n, e);
    }
  }

  // As many frames as are seen to be free fit between the ends.
  lemma {:induction false} FreeInAtMost(v: seq<Kind>, lo: nat, hi: nat)
    requires lo <= hi <= |v|
    ensures FreeIn(v, lo, hi) <= hi - lo
    decreases hi
  {
    if lo < hi { FreeInAtMost(v, lo, hi - 1); }
  }

  // The first stretch is a run of n free frames, and starts at p.
  ghost predicate FirstIsFree(w: Page, flags: Flags, p: nat) {
    var n, limit := flags.pageAllocNum, SearchLimit(w, flags);
    p + n <= limit && FreeRun(w, p, n) && forall q: nat | q < p :: !Stretch(View(w), q, n, limit)
  }

  // Without align_64kb the search answers n free frames in a row exactly when some such run has no stretch in
  // front of it. Otherwise it answers -1 exactly when there is no stretch at all, and else frames among which
  // some are taken.
  lemma {:induction false} UnalignedSearchExactly(w: Page, flags: Flags)
    requires SummarySound(w) && !flags.align64kb && flags.pageAllocNum >= 1
    ensures var r, n, limit := Search(w, flags), flags.pageAllocNum, SearchLimit(w, flags);
            && (r >= 0 && FreeRun(w, r, n) <==> exists p: nat :: FirstIsFree(w, flags, p))
            && (r == -1 <==> forall q: nat :: !Stretch(View(w), q, n, limit))
            && (r == -1 ==> forall p: nat | p + n <= limit :: !FreeRun(w, p, n))
            && (r == -1 || (r >= 0 && FreeRun(w, r, n)) <==>
                forall q: nat | Stretch(View(w), q, n, limit) :: exists p: nat :: p <= q && FreeRun(w, p, n))
  {
    var v, r, n, limit := View(w), Search(w, flags), flags.pageAllocNum, SearchLimit(w, flags);
    UnalignedSearchIsFirstStretch(w, flags);
    forall p: nat | p + n <= limit && FreeRun(w, p, n) ensures Stretch(v, p, n, limit) {
      FreeRunReaches(w, p, n);
    }
    if r != -1 {
      StretchHasRoom(v, r, n, limit);
      assert FreeRun(w, r, n) ==> FirstIsFree(w, flags, r);
      if p: nat :| p <= r && FreeRun(w, p, n) {
        FreeRunStretches(w, n, limit, r, p);
        assert p == r;
      }
    }
  }

  lemma {:induction false} StretchHasRoom(v: seq<Kind>, r: nat, n: nat, limit: nat)
    requires Stretch(v, r, n, limit)
    ensures r + n <= limit
  {
    var e: nat :| e <= limit && Reaches(v, r, n, e);
    FreeInAtMost(v, r, e);
  }

  // ------------------------------------------------------------ what a contiguous request gets

  // The bitmap has what a contiguous request for n frames asks for, where the search finds it.
  ghost predicate HasRun(w: Page, flags: Flags) {
    if flags.align64kb then exists q: nat :: q < SearchLimit(w, flags) && RunAt(w, q, flags.pageAllocNum)
    else exists p: nat :: FirstIsFree(w, flags, p)
  }

  // The search answers n free frames in a row exactly then. An aligned search answers -1 otherwise, an
  // unaligned one -1 or a frame with taken ones behind it.
  lemma {:induction false} RequestExactly(w: Page, flags: Flags)
    requires SummarySound(w) && flags.pageAllocNum >= 1
    ensures var r, n := Search(w, flags), flags.pageAllocNum;
            && (HasRun(w, flags) <==> r >= 0 && FreeRun(w, r, n))
            && (flags.align64kb ==> (r == -1 <==> !HasRun(w, flags)) && (r >= 0 ==> RunAt(w, r, n)))
            && (!flags.align64kb ==>
                  (r == -1 <==> forall q: nat :: !Stretch(View(w), q, n, SearchLimit(w, flags))))
  {
    if flags.align64kb {
      AlignedSearchIsFirstRun(w, flags);
      var r, n := Search(w, flags), flags.pageAllocNum;
      if r != -1 { RunIsFree(w, r, n); }
    } else {
      UnalignedSearchExactly(w, flags);
    }
  }

  lemma {:induction false} RunIsFree(w: Page, r: nat, n: nat)
    requires RunAt(w, r, n)
    ensures FreeRun(w, r, n)
  {
    assert r < 16 * (r / 16) + 16 <= 4096;
  }

  // ------------------------------------------------------------ an input that goes wrong

  lemma {:induction false} ScanBitsOverTaken(w: Page, s: nat, bit: nat, stop: nat, n: nat, num: nat, base: nat)
    requires s < 256 && bit < stop <= 16 && (forall f: nat | 16 * s + bit <= f < 16 * s + stop :: Taken(w, f))
    ensures ScanBits(w, s, bit, n, num, base) == ScanBits(w, s, stop, n, 0, base)
    decreases stop - bit
  {
    if bit + 1 < stop { ScanBitsOverTaken(w, s, bit + 1, stop, n, 0, base); }
  }

  // All frames taken and marked, then frames 15 and 32 freed: a request for two frames in a row gets
  // frame 15, although frame 16 is taken.
  lemma {:induction false} UnalignedSearchCanFail(all: Page)
    requires forall k: nat | k < 136 :: Full(all[k])
    ensures var w := ClearBit(ClearBit(all, 15), 32);
            SummarySound(w) && Search(w, Flags(false, false, true, 2)) == 15 && Taken(w, 16)
  {
    AllFullIsSound(all);
    ClearKeepsSummary(all, 15);
    var v := ClearBit(all, 15);
    ClearKeepsSummary(v, 32);
    var w := ClearBit(v, 32);
    var flags := Flags(false, false, true, 2);
    forall f: nat | f < 64 ensures Taken(w, f) <==> f != 15 && f != 32 {
      TakenAfterClear(all, 15, f);
      TakenAfterClear(v, 32, f);
    }
    forall s: nat | s < 3 ensures Marked(w, s) <==> s == 1 {
      MarkedAfterClear(all, 15, s);
      MarkedAfterClear(v, 32, s);
    }
    assert !Marked(w, 0) && !w[128][0];
    assert !Taken(w, 15) && !w[0][15];
    assert !Taken(w, 32) && !w[1][0];
    ScanBitsOverTaken(w, 0, 0, 15, 2, 0, 0);
    assert ScanBits(w, 0, 15, 2, 0, 0) == Go(1, 15);
    assert ScanSuper(w, 0, flags, 0, 0) == Go(1, 15);
    assert ScanSuper(w, 1, flags, 1, 15) == Go(1, 15);
    assert ScanSuper(w, 2, flags, 1, 15) == Found(15);
    assert ScanFrom(w, 2, flags, 1, 15) == 15;
    assert ScanFrom(w, 1, flags, 1, 15) == 15;
  }
}
