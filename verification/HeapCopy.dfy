/** liballoc_memcpy: words first, then the remaining bytes. */
module HeapCopy {
  import opened HeapMemory

  // The reference: one byte at a time, front to back.
  function Copied(m: Bytes, dst: nat, src: nat, n: nat): Bytes
    decreases n
  {
    if n == 0 then m else Copied(m[dst := ByteAt(m, src)], dst + 1, src + 1, n - 1)
  }

  // Where a word at a time and a byte at a time agree: no byte of a word is overwritten before it is read.
  ghost predicate WordSafe(dst: nat, src: nat, n: nat) {
    dst <= src || src + 4 <= dst || n < 4
  }

  // One 32-bit move: all four bytes are read before any is written.
  function WordMoved(m: Bytes, dst: nat, src: nat): Bytes {
    var b0, b1, b2, b3 := ByteAt(m, src), ByteAt(m, src + 1), ByteAt(m, src + 2), ByteAt(m, src + 3);
    m[dst := b0][dst + 1 := b1][dst + 2 := b2][dst + 3 := b3]
  }

  // The same four bytes moved one at a time.
  function FourBytesMoved(m: Bytes, dst: nat, src: nat): Bytes {
    var m1 := m[dst := ByteAt(m, src)];
    var m2 := m1[dst + 1 := ByteAt(m1, src + 1)];
    var m3 := m2[dst + 2 := ByteAt(m2, src + 2)];
    m3[dst + 3 := ByteAt(m3, src + 3)]
  }

  lemma {:induction false} FourBytesFirst(m: Bytes, dst: nat, src: nat, n: nat)
    requires n >= 4
    ensures Copied(m, dst, src, n) == Copied(FourBytesMoved(m, dst, src), dst + 4, src + 4, n - 4)
  {
    var m1 := m[dst := ByteAt(m, src)];
    var m2 := m1[dst + 1 := ByteAt(m1, src + 1)];
    var m3 := m2[dst + 2 := ByteAt(m2, src + 2)];
    assert Copied(m, dst, src, n) == Copied(m1, dst + 1, src + 1, n - 1);
    assert Copied(m1, dst + 1, src + 1, n - 1) == Copied(m2, dst + 2, src + 2, n - 2);
    assert Copied(m2, dst + 2, src + 2, n - 2) == Copied(m3, dst + 3, src + 3, n - 3);
  }

  lemma {:induction false} WordIsFourBytes(m: Bytes, dst: nat, src: nat)
    requires dst <= src || src + 4 <= dst
    ensures FourBytesMoved(m, dst, src) == WordMoved(m, dst, src)
  {
  }

  function CopiedByWords(m: Bytes, dst: nat, src: nat, n: nat): Bytes
    decreases n
  {
    if n >= 4 then CopiedByWords(WordMoved(m, dst, src), dst + 4, src + 4, n - 4) else Copied(m, dst, src, n)
  }

  lemma {:induction false} WordsEqualBytes(m: Bytes, dst: nat, src: nat, n: nat)
    requires WordSafe(dst, src, n)
    ensures CopiedByWords(m, dst, src, n) == Copied(m, dst, src, n)
    decreases n
  {
    if n >= 4 {
      FourBytesFirst(m, dst, src, n);
      WordIsFourBytes(m, dst, src);
      WordsEqualBytes(WordMoved(m, dst, src), dst + 4, src + 4, n - 4);
    }
  }

  lemma {:induction false} BelowUntouched(m: Bytes, dst: nat, src: nat, n: nat, a: nat)
    requires a < dst
    ensures ByteAt(Copied(m, dst, src, n), a) == ByteAt(m, a)
    decreases n
  {
    if n > 0 { BelowUntouched(m[dst := ByteAt(m, src)], dst + 1, src + 1, n - 1, a); }
  }

  lemma {:induction false} BelowUntouchedByWords(m: Bytes, dst: nat, src: nat, n: nat, a: nat)
    requires a < dst
    ensures ByteAt(CopiedByWords(m, dst, src, n), a) == ByteAt(m, a)
    decreases n
  {
    if n >= 4 {
      BelowUntouchedByWords(WordMoved(m, dst, src), dst + 4, src + 4, n - 4, a);
    } else {
      BelowUntouched(m, dst, src, n, a);
    }
  }

  lemma {:induction false} CloseMovesDiffer(dst: nat, src: nat)
    requires src < dst < src + 4
    ensures var m: Bytes, a := map[src := 1, dst := 2], dst + (dst - src);
            a < dst + 4 && ByteAt(WordMoved(m, dst, src), a) == 2 && ByteAt(FourBytesMoved(m, dst, src), a) == 1
  {
  }

  // What the first word leaves behind is not touched again, whichever way the rest is copied.
  lemma {:induction false} FirstWordStays(m: Bytes, dst: nat, src: nat, n: nat, a: nat)
    requires n >= 4 && a < dst + 4
    ensures ByteAt(CopiedByWords(m, dst, src, n), a) == ByteAt(WordMoved(m, dst, src), a)
    ensures ByteAt(Copied(m, dst, src, n), a) == ByteAt(FourBytesMoved(m, dst, src), a)
  {
    BelowUntouchedByWords(WordMoved(m, dst, src), dst + 4, src + 4, n - 4, a);
    FourBytesFirst(m, dst, src, n);
    BelowUntouched(FourBytesMoved(m, dst, src), dst + 4, src + 4, n - 4, a);
  }

  // With dst one to three bytes above src, a word is read before the byte copy would have overwritten it.
  lemma {:induction false} CloseOverlapDiffers(dst: nat, src: nat, n: nat)
    requires src < dst < src + 4 && n >= 4
    ensures var m: Bytes := map[src := 1, dst := 2]; CopiedByWords(m, dst, src, n) != Copied(m, dst, src, n)
  {
    CloseMovesDiffer(dst, src);
    FirstWordStays(map[src := 1, dst := 2], dst, src, n, dst + (dst - src));
  }

  // liballoc_memcpy is a byte copy exactly for these arguments.
  lemma {:induction false} WordsEqualBytesExactly(dst: nat, src: nat, n: nat)
    ensures WordSafe(dst, src, n) <==> forall m: Bytes :: CopiedByWords(m, dst, src, n) == Copied(m, dst, src, n)
  {
    if WordSafe(dst, src, n) {
      forall m: Bytes ensures CopiedByWords(m, dst, src, n) == Copied(m, dst, src, n) {
        WordsEqualBytes(m, dst, src, n);
      }
    } else {
      CloseOverlapDiffers(dst, src, n);
    }
  }

  // Bytes outside the destination are untouched; with disjoint ranges the destination holds the source.
  lemma {:induction false} CopiedAt(m: Bytes, dst: nat, src: nat, n: nat, a: nat)
    requires dst + n <= src || src + n <= dst
    ensures ByteAt(Copied(m, dst, src, n), a) == if dst <= a < dst + n then ByteAt(m, src + (a - dst)) else ByteAt(m, a)
    decreases n
  {
    if n > 0 {
      CopiedAt(m[dst := ByteAt(m, src)], dst + 1, src + 1, n - 1, a);
    }
  }

  method Memcpy(bytes: Bytes, s1: nat, s2: nat, n: nat) returns (m: Bytes)
    ensures m == CopiedByWords(bytes, s1, s2, n)
  {
    m := bytes;
    var dest, src, left := s1, s2, n;
    while left >= 4
      invariant CopiedByWords(m, dest, src, left) == CopiedByWords(bytes, s1, s2, n)
      decreases left
    {
      m := WordMoved(m, dest, src);
      dest, src, left := dest + 4, src + 4, left - 4;
    }
    while left > 0
      invariant left < 4 && Copied(m, dest, src, left) == CopiedByWords(bytes, s1, s2, n)
      decreases left
    {
      m := m[dest := ByteAt(m, src)];
      dest, src, left := dest + 1, src + 1, left - 1;
    }
  }
}
