/** The low-memory frame bitmap: one page of 1024 words holding a block bitmap of 4096
    frames, a summary bit for every 16 frames, and reserved words. */
module FrameBitmap {

  // A 32-bit word is its 32 bits, bit 0 first: w | 1 << j is w[j := true], w & 1 << j is w[j].
  type Word = w: seq<bool> | |w| == 32 witness seq(32, _ => false)

  // lomem_bitmaps_t: words 0..127 block bitmap, 128..135 superblock bitmap, the rest reserved.
  type Page = w: seq<Word> | |w| == 1024 witness seq(1024, _ => seq(32, _ => false))

  predicate Full(w: Word) {
    forall j: nat | j < 32 :: w[j]
  }

  predicate Taken(w: Page, f: nat)
    requires f < 4096
  {
    w[f / 32][f % 32]
  }

  predicate Marked(w: Page, s: nat)
    requires s < 256
  {
    w[128 + s / 32][s % 32]
  }

  ghost predicate AllTaken(w: Page, s: nat)
    requires s < 256
  {
    forall f: nat | 16 * s <= f < 16 * s + 16 :: Taken(w, f)
  }

  // The summary may lag behind, but a marked superblock has no free frame.
  ghost predicate SummarySound(w: Page) {
    forall s: nat | s < 256 && Marked(w, s) :: AllTaken(w, s)
  }

  ghost function FreeFrames(w: Page): set<nat> {
    set f: nat | f < 4096 && !Taken(w, f)
  }

  // check_super_region: sixteen words from the one holding the frame, which can run past the bitmap.
  predicate RegionFull(w: Page, bit: nat)
    requires bit < 4096
  {
    forall k: nat | bit / 32 <= k < bit / 32 + 16 :: Full(w[k])
  }

  // ------------------------------------------------------------ setting and clearing

  function SetBit(w: Page, bit: nat): Page {
    if bit >= 4096 then w
    else
      var w := w[bit / 32 := w[bit / 32][bit % 32 := true]];
      if RegionFull(w, bit) then w[128 + bit / 512 := w[128 + bit / 512][bit / 16 % 32 := true]] else w
  }

  function ClearBit(w: Page, bit: nat): Page {
    if bit >= 4096 then w
    else
      var w := w[bit / 32 := w[bit / 32][bit % 32 := false]];
      w[128 + bit / 512 := w[128 + bit / 512][bit / 16 % 32 := false]]
  }

  lemma {:induction false} TakenAfterSet(w: Page, bit: nat, f: nat)
    requires f < 4096
    ensures Taken(SetBit(w, bit), f) <==> f == bit || Taken(w, f)
  {
  }

  lemma {:induction false} TakenAfterClear(w: Page, bit: nat, f: nat)
    requires f < 4096
    ensures Taken(ClearBit(w, bit), f) <==> f != bit && Taken(w, f)
  {
  }

  // The word and the bit of frame bit's superblock in the summary.
  lemma {:induction false} SummaryPlace(bit: nat, s: nat)
    requires bit < 4096 && s < 256
    ensures bit / 512 == bit / 16 / 32
    ensures s == bit / 16 <==> s / 32 == bit / 512 && s % 32 == bit / 16 % 32
  {
    assert s == s / 32 * 32 + s % 32;
    assert bit / 16 == bit / 16 / 32 * 32 + bit / 16 % 32;
  }

  lemma {:induction false} MarkedAfterSet(w: Page, bit: nat, s: nat)
    requires s < 256
    ensures Marked(SetBit(w, bit), s) <==>
            Marked(w, s)
            || (bit < 4096 && s == bit / 16 && RegionFull(w[bit / 32 := w[bit / 32][bit % 32 := true]], bit))
  {
    if bit < 4096 { SummaryPlace(bit, s); }
  }

  lemma {:induction false} MarkedAfterClear(w: Page, bit: nat, s: nat)
    requires s < 256
    ensures Marked(ClearBit(w, bit), s) <==> Marked(w, s) && !(bit < 4096 && s == bit / 16)
  {
    if bit < 4096 { SummaryPlace(bit, s); }
  }

  // A region found full covers the word the frame is in, and with it the frame's superblock.
  lemma {:induction false} RegionCovers(w: Page, bit: nat, f: nat)
    requires bit < 4096 && f < 4096 && f / 16 == bit / 16 && RegionFull(w, bit)
    ensures Taken(w, f)
  {
    assert f / 32 == f / 16 / 2 && bit / 32 == bit / 16 / 2;
    assert Full(w[bit / 32]);
  }

  lemma {:induction false} SetKeepsOne(w: Page, bit: nat, s: nat, f: nat)
    requires SummarySound(w) && s < 256 && Marked(SetBit(w, bit), s) && 16 * s <= f < 16 * s + 16
    ensures Taken(SetBit(w, bit), f)
  {
    MarkedAfterSet(w, bit, s);
    TakenAfterSet(w, bit, f);
    if Marked(w, s) {
      assert AllTaken(w, s);
    } else {
      var v: Page := w[bit / 32 := w[bit / 32][bit % 32 := true]];
      assert f / 16 == s;
      RegionCovers(v, bit, f);
      assert f != bit ==> v[f / 32][f % 32] == w[f / 32][f % 32];
    }
  }

  // Setting may mark a superblock only when all its frames are taken; clearing unmarks it.
  lemma {:induction false} SetKeepsSummary(w: Page, bit: nat)
    requires SummarySound(w)
    ensures SummarySound(SetBit(w, bit))
  {
    forall s: nat, f: nat | s < 256 && Marked(SetBit(w, bit), s) && 16 * s <= f < 16 * s + 16
      ensures Taken(SetBit(w, bit), f)
    {
      SetKeepsOne(w, bit, s, f);
    }
  }

  lemma {:induction false} ClearKeepsSummary(w: Page, bit: nat)
    requires SummarySound(w)
    ensures SummarySound(ClearBit(w, bit))
  {
    var w' := ClearBit(w, bit);
    forall s: nat | s < 256 && Marked(w', s) ensures AllTaken(w', s) {
      MarkedAfterClear(w, bit, s);
      forall f: nat | 16 * s <= f < 16 * s + 16 ensures Taken(w', f) {
        TakenAfterClear(w, bit, f);
        assert AllTaken(w, s);
      }
    }
  }

  lemma {:induction false} SetTakesOne(w: Page, bit: nat)
    ensures FreeFrames(SetBit(w, bit)) == FreeFrames(w) - {bit}
  {
    forall f: nat | f < 4096 ensures Taken(SetBit(w, bit), f) <==> f == bit || Taken(w, f) {
      TakenAfterSet(w, bit, f);
    }
  }

  lemma {:induction false} ClearFreesOne(w: Page, bit: nat)
    ensures FreeFrames(ClearBit(w, bit)) == FreeFrames(w) + (if bit < 4096 then {bit} else {})
  {
    forall f: nat | f < 4096 ensures Taken(ClearBit(w, bit), f) <==> f != bit && Taken(w, f) {
      TakenAfterClear(w, bit, f);
    }
  }

  // block_bitmap[0] |= 7: frames 0 to 2 are never free.
  function Reserve3(w: Page): Page {
    w[0 := w[0][0 := true][1 := true][2 := true]]
  }

  lemma {:induction false} Reserve3Takes(w: Page)
    requires SummarySound(w)
    ensures SummarySound(Reserve3(w)) && FreeFrames(Reserve3(w)) == FreeFrames(w) - {0, 1, 2}
  {
    var w' := Reserve3(w);
    assert forall f: nat | f < 4096 :: Taken(w', f) <==> f < 3 || Taken(w, f);
    forall s: nat | s < 256 && Marked(w', s) ensures AllTaken(w', s) { assert AllTaken(w, s); }
  }

  // The first fill: every frame taken, every superblock marked.
  lemma {:induction false} AllFullIsSound(all: Page)
    requires forall k: nat | k < 136 :: Full(all[k])
    ensures SummarySound(all) && forall f: nat | f < 4096 :: Taken(all, f)
    ensures forall s: nat | s < 256 :: Marked(all, s)
  {
  }
}
