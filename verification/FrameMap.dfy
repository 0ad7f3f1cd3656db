/** The bitmap page updated in place, and the nested search loops over it. */
module FrameMap {
  import opened FrameBitmap
  import opened FrameSearch

  class Bitmap {
    const words: array<Word>

    ghost predicate Valid()
      reads this, words
    {
      words.Length == 1024 && SummarySound(words[..])
    }

    // kmemset to 0xFF: every frame taken, every superblock marked; then the reserved pattern 0x20202020.
    constructor ()
      ensures Valid() && fresh(words)
      ensures forall f: nat | f < 4096 :: Taken(words[..], f)
    {
      var ones: Word := seq(32, _ => true);
      var reserved: Word := seq(32, j => j % 8 == 5);
      words := new Word[1024](k => if k < 136 then ones else reserved);
    }

    method CheckSuperRegion(bit: nat) returns (full: bool)
      requires words.Length == 1024 && bit < 4096
      ensures full <==> RegionFull(words[..], bit)
    {
      for off := 0 to 16
        invariant forall k: nat | bit / 32 <= k < bit / 32 + off :: Full(words[..][k])
      {
        if !Full(words[(bit - bit % 16) / 32 + off]) {
          assert !Full(words[..][bit / 32 + off]);
          return false;
        }
      }
      return true;
    }

    method Set(bit: nat)
      requires Valid()
      modifies words
      ensures Valid() && words[..] == SetBit(old(words[..]), bit)
      ensures FreeFrames(words[..]) == FreeFrames(old(words[..])) - {bit}
    {
      SetKeepsSummary(words[..], bit);
      SetTakesOne(words[..], bit);
      if bit >= 4096 { return; }
      words[bit / 32] := words[bit / 32][bit % 32 := true];
      var full := CheckSuperRegion(bit);
      if full {
        words[128 + bit / 512] := words[128 + bit / 512][bit / 16 % 32 := true];
      }
    }

    method Clear(bit: nat)
      requires Valid()
      modifies words
      ensures Valid() && words[..] == ClearBit(old(words[..]), bit)
      ensures FreeFrames(words[..]) == FreeFrames(old(words[..])) + (if bit < 4096 then {bit} else {})
    {
      ClearKeepsSummary(words[..], bit);
      ClearFreesOne(words[..], bit);
      if bit >= 4096 { return; }
      words[bit / 32] := words[bit / 32][bit % 32 := false];
      words[128 + bit / 512] := words[128 + bit / 512][bit / 16 % 32 := false];
    }

    // Frames 0 to 2 stay taken: block_bitmap[0] |= 7.
    method Reserve()
      requires Valid()
      modifies words
      ensures Valid() && FreeFrames(words[..]) == FreeFrames(old(words[..])) - {0, 1, 2}
    {
      Reserve3Takes(words[..]);
      words[0] := words[0][0 := true][1 := true][2 := true];
      assert words[..] == Reserve3(old(words[..]));
    }

    method Get(bit: nat) returns (taken: bool)
      requires words.Length == 1024
      ensures taken <==> bit >= 4096 || Taken(words[..], bit)
    {
      if bit >= 4096 { return true; }
      taken := words[bit / 32][bit % 32];
    }

    // One frame of a superblock: enough found, or the count to go on with.
    method ScanBit(s: nat, bit: nat, n: nat, num0: nat, base0: nat, ghost w: Page)
      returns (enough: bool, num: nat, base: nat)
      requires words.Length == 1024 && w == words[..] && s < 256 && bit < 16
      ensures ScanBits(w, s, bit, n, num0, base0)
              == if enough then Found(base) else ScanBits(w, s, bit + 1, n, num, base)
    {
      enough, num, base := false, num0, base0;
      var f: nat := 16 * s + bit;
      var taken := Get(f);
      NextBit(w, s, bit, f, n, num0, base0);
      if !taken {
        if num == 0 { base := f; }
        num := num + 1;
        enough := num >= n;
      } else {
        num := 0;
      }
    }

    // The loop over the 16 frames of one superblock.
    method ScanBlock(s: nat, flags: Flags, num0: nat, base0: nat) returns (step: Step)
      requires words.Length == 1024 && s < 256
      ensures step == ScanBits(words[..], s, 0, flags.pageAllocNum, num0, base0)
    {
      ghost var w: Page := words[..];
      ghost var goal := ScanBits(w, s, 0, flags.pageAllocNum, num0, base0);
      var enough, num, base := false, num0, base0;
      var bit: nat := 0;
      while bit < 16
        invariant bit <= 16
        invariant ScanBits(w, s, bit, flags.pageAllocNum, num, base) == goal
      {
        enough, num, base := ScanBit(s, bit, flags.pageAllocNum, num, base, w);
        if enough { return Found(base); }
        bit := bit + 1;
      }
      return Go(num, base);
    }

    // A superblock is passed over when it is marked, or when the word its frames are in is full.
    method PassOver(superblockBase: nat, superBit: nat, ghost w: Page) returns (skip: bool)
      requires words.Length == 1024 && w == words[..] && superblockBase < 8 && superBit < 32
      ensures skip == Skipped(w, 32 * superblockBase + superBit)
    {
      SkippedIs(w, superblockBase, superBit);
      skip := true;
      if !words[128 + superblockBase][superBit] {
        var blockBase: nat := 32 * superblockBase + superBit;
        skip := Full(words[blockBase / 2]);
      }
    }

    // One superblock: looked into unless it is passed over.
    method ScanSuperblock(superblockBase: nat, superBit: nat, flags: Flags, num0: nat, base0: nat) returns (step: Step)
      requires words.Length == 1024 && superblockBase < 8 && superBit < 32
      ensures step == ScanSuper(words[..], 32 * superblockBase + superBit, flags, num0, base0)
    {
      step := Go(num0, base0);
      var skip := PassOver(superblockBase, superBit, words[..]);
      if !skip {
        step := ScanBlock(32 * superblockBase + superBit, flags, num0, base0);
      }
      if flags.align64kb && step.Go? { step := Go(0, 0); }
    }

    // One superblock of a word: a final answer, or the count to go on with.
    method ScanNext(superblockBase: nat, superBit: nat, flags: Flags, num0: nat, base0: nat, ghost w: Page)
      returns (done: bool, r: int, num: nat, base: nat)
      requires words.Length == 1024 && w == words[..] && superblockBase < 8 && superBit < 32
      requires !Full(words[128 + superblockBase])
      ensures var s: nat := 32 * superblockBase + superBit;
              ScanFrom(w, s, flags, num0, base0) == if done then r else ScanFrom(w, s + 1, flags, num, base)
    {
      NextSuper(w, superblockBase, superBit, flags, num0, base0);
      var step := ScanSuperblock(superblockBase, superBit, flags, num0, base0);
      if step.Found? { return true, step.frame, num0, base0; }
      if flags.lowMem && superBit > 15 && superblockBase == 0 { return true, -1, num0, base0; }
      return false, -1, step.num, step.base;
    }

    // The loop over the 32 superblocks of one word: a final answer, or the count to go on with.
    method ScanWord(superblockBase: nat, flags: Flags, num0: nat, base0: nat)
      returns (done: bool, r: int, num: nat, base: nat)
      requires words.Length == 1024 && superblockBase < 8 && !Full(words[128 + superblockBase])
      ensures ScanFrom(words[..], 32 * superblockBase, flags, num0, base0) ==
              if done then r else ScanFrom(words[..], 32 * (superblockBase + 1), flags, num, base)
    {
      ghost var w: Page := words[..];
      ghost var goal := ScanFrom(w, 32 * superblockBase, flags, num0, base0);
      done, r, num, base := false, -1, num0, base0;
      var superBit: nat := 0;
      while superBit < 32 && !done
        invariant superBit <= 32
        invariant goal == if done then r else ScanFrom(w, 32 * superblockBase + superBit, flags, num, base)
        decreases 32 - superBit
      {
        done, r, num, base := ScanNext(superblockBase, superBit, flags, num, base, w);
        superBit := superBit + 1;
      }
    }

    method FirstClearBits(flags: Flags) returns (r: int)
      requires words.Length == 1024
      ensures r == Search(words[..], flags)
    {
      if flags.pageAllocNum == 0 && flags.contiguous { return -1; }
      ghost var w: Page := words[..];
      var base: nat, num: nat, done := 0, 0, false;
      var superblockBase := 0;
      while superblockBase < 8
        invariant superblockBase <= 8
        invariant ScanFrom(w, 32 * superblockBase, flags, num, base) == Search(w, flags)
      {
        if !Full(words[128 + superblockBase]) {
          done, r, num, base := ScanWord(superblockBase, flags, num, base);
          if done { return; }
        } else {
          NextWord(w, superblockBase, flags, num, base);
        }
        superblockBase := superblockBase + 1;
      }
      return -1;
    }
  }

  lemma {:induction false} NextBit(w: Page, s: nat, bit: nat, f: nat, n: nat, num: nat, base: nat)
    requires s < 256 && bit < 16 && f == 16 * s + bit
    ensures f < 4096
    ensures ScanBits(w, s, bit, n, num, base) ==
            if Taken(w, f) then ScanBits(w, s, bit + 1, n, 0, base)
            else if num + 1 >= n then Found(if num == 0 then f else base)
            else ScanBits(w, s, bit + 1, n, num + 1, if num == 0 then f else base)
  {
  }

  lemma {:induction false} MarkedInWord(w: Page, superblockBase: nat, superBit: nat)
    requires superblockBase < 8 && superBit < 32
    ensures Marked(w, 32 * superblockBase + superBit) == w[128 + superblockBase][superBit]
  {
    FirstOfWord(superblockBase, superBit);
  }

  lemma {:induction false} SkippedIs(w: Page, superblockBase: nat, superBit: nat)
    requires superblockBase < 8 && superBit < 32
    ensures var s := 32 * superblockBase + superBit;
            Skipped(w, s) <==> w[128 + superblockBase][superBit] || Full(w[s / 2])
  {
    MarkedInWord(w, superblockBase, superBit);
  }

  lemma {:induction false} FirstOfWord(superblockBase: nat, superBit: nat)
    requires superBit < 32
    ensures (32 * superblockBase + superBit) / 32 == superblockBase && (32 * superblockBase + superBit) % 32 == superBit
  {
  }

  lemma {:induction false} NextSuper(w: Page, superblockBase: nat, superBit: nat, flags: Flags, num: nat, base: nat)
    requires superblockBase < 8 && superBit < 32 && !Full(w[128 + superblockBase])
    ensures var s := 32 * superblockBase + superBit;
            var step := ScanSuper(w, s, flags, num, base);
            ScanFrom(w, s, flags, num, base) ==
            if step.Found? then step.frame
            else if flags.lowMem && superBit > 15 && superblockBase == 0 then -1
            else ScanFrom(w, s + 1, flags, step.num, step.base)
  {
    FirstOfWord(superblockBase, superBit);
    LooksInto(w, 32 * superblockBase + superBit, flags, num, base);
  }

  lemma {:induction false} NextWord(w: Page, superblockBase: nat, flags: Flags, num: nat, base: nat)
    requires superblockBase < 8 && Full(w[128 + superblockBase])
    ensures ScanFrom(w, 32 * superblockBase, flags, num, base)
            == ScanFrom(w, 32 * (superblockBase + 1), flags, num, base)
  {
  }
}
