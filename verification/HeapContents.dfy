/** Payload bytes: what a client may write, and what moving a block preserves. */
module HeapContents {
  import opened HeapLayout
  import opened HeapSpec
  import opened HeapTheorems
  import opened HeapMemory
  import opened HeapCopy

  // m' differs from m at most in [lo, hi).
  ghost predicate ChangedWithin(m: Bytes, m': Bytes, lo: nat, hi: nat) {
    forall a: nat | a < lo || hi <= a :: ByteAt(m', a) == ByteAt(m, a)
  }

  ghost predicate SamePayload(m: Bytes, m': Bytes, b: Block) {
    forall a: nat | b.Payload() <= a < b.Payload() + b.req :: ByteAt(m', a) == ByteAt(m, a)
  }

  // The payload of b as it was in m now starts at dst.
  ghost predicate MovedTo(m: Bytes, m': Bytes, b: Block, dst: nat) {
    forall a: nat | dst <= a < dst + b.req :: ByteAt(m', a) == ByteAt(m, b.Payload() + (a - dst))
  }

  // Whatever a client writes inside one payload, every alignment byte and every other payload stays.
  lemma {:induction false} PayloadWritesAreSafe(m: Bytes, m': Bytes, runs: seq<Run>, i: nat, j: nat)
    requires Sound(runs) && AlignBytesShow(m, runs) && At(runs, i, j)
    requires var b := runs[i].blocks[j]; ChangedWithin(m, m', b.Payload(), b.Payload() + b.req)
    ensures AlignBytesShow(m', runs)
    ensures forall k: nat, l: nat | At(runs, k, l) && (k, l) != (i, j) :: SamePayload(m, m', runs[k].blocks[l])
  {
    forall k: nat, l: nat | At(runs, k, l) ensures AlignByteShows(m', runs[k].blocks[l]) {
      Isolation(runs, i, j, k, l);
      Isolation(runs, k, l, i, j);
      assert AlignByteShows(m, runs[k].blocks[l]);
    }
    forall k: nat, l: nat | At(runs, k, l) && (k, l) != (i, j) ensures SamePayload(m, m', runs[k].blocks[l]) {
      Isolation(runs, i, j, k, l);
      Isolation(runs, k, l, i, j);
    }
  }

  // ALIGN's write touches no payload at all.
  lemma {:induction false} AlignByteOutsidePayloads(m: Bytes, runs: seq<Run>, i: nat, j: nat, k: nat, l: nat)
    requires Sound(runs) && At(runs, i, j) && At(runs, k, l)
    ensures SamePayload(m, WithAlignByte(m, runs[i].blocks[j]), runs[k].blocks[l])
  {
    Isolation(runs, i, j, k, l);
    Isolation(runs, k, l, i, j);
  }

  // Copying old.req bytes of block (i, j) into the bigger block (k, l): the alignment bytes hold, the
  // new block starts with the old contents, every block but the new one keeps its payload.
  lemma {:induction false} MoveKeepsContents(m: Bytes, runs: seq<Run>, i: nat, j: nat, k: nat, l: nat)
    requires Sound(runs) && AlignBytesShow(m, runs) && At(runs, i, j) && At(runs, k, l) && (i, j) != (k, l)
    requires runs[i].blocks[j].req <= runs[k].blocks[l].req
    ensures var b, c := runs[i].blocks[j], runs[k].blocks[l];
            var m' := CopiedByWords(m, c.Payload(), b.Payload(), b.req);
            && AlignBytesShow(m', runs)
            && MovedTo(m, m', b, c.Payload())
            && (forall x: nat, y: nat | At(runs, x, y) && (x, y) != (k, l) :: SamePayload(m, m', runs[x].blocks[y]))
  {
    var b, c := runs[i].blocks[j], runs[k].blocks[l];
    var m' := CopiedByWords(m, c.Payload(), b.Payload(), b.req);
    PayloadsApart(runs, i, j, k, l);
    WordsEqualBytes(m, c.Payload(), b.Payload(), b.req);
    assert MovedTo(m, m', b, c.Payload()) by {
      forall a: nat | c.Payload() <= a < c.Payload() + b.req
        ensures ByteAt(m', a) == ByteAt(m, b.Payload() + (a - c.Payload()))
      {
        CopiedAt(m, c.Payload(), b.Payload(), b.req, a);
      }
    }
    assert ChangedWithin(m, m', c.Payload(), c.Payload() + c.req) by {
      forall a: nat | a < c.Payload() || c.Payload() + c.req <= a ensures ByteAt(m', a) == ByteAt(m, a) {
        CopiedAt(m, c.Payload(), b.Payload(), b.req, a);
      }
    }
    PayloadWritesAreSafe(m, m', runs, k, l);
  }

  lemma {:induction false} PayloadsApart(runs: seq<Run>, i: nat, j: nat, k: nat, l: nat)
    requires Sound(runs) && At(runs, i, j) && At(runs, k, l) && (i, j) != (k, l)
    ensures var b, c := runs[i].blocks[j], runs[k].blocks[l];
            b.Payload() + b.req + 24 <= c.Payload() || c.Payload() + c.req + 24 <= b.Payload()
  {
    Isolation(runs, i, j, k, l);
    Isolation(runs, k, l, i, j);
  }

  lemma {:induction false} SamePayloadTransitive(m: Bytes, m': Bytes, m'': Bytes, b: Block)
    requires SamePayload(m, m', b) && SamePayload(m', m'', b)
    ensures SamePayload(m, m'', b)
  {
  }

  lemma {:induction false} MovedFromSame(m: Bytes, m': Bytes, m'': Bytes, b: Block, dst: nat)
    requires SamePayload(m, m', b) && MovedTo(m', m'', b, dst)
    ensures MovedTo(m, m'', b, dst)
  {
  }

  // Block c was just placed and the payload of b copied into it: c starts with the old contents, and
  // every other block, b included, still reads as it did.
  lemma {:induction false} MoveToBlock(m: Bytes, runs: seq<Run>, b: Block, c: Block)
    requires Sound(runs) && b in LiveBlocks(runs) && c in LiveBlocks(runs) && b != c && b.req <= c.req
    requires AlignBytesShow(WithAlignByte(m, c), runs)
    ensures var m'' := CopiedByWords(WithAlignByte(m, c), c.Payload(), b.Payload(), b.req);
            && AlignBytesShow(m'', runs) && MovedTo(m, m'', b, c.Payload())
            && (forall d: Block | d in LiveBlocks(runs) && d != c :: SamePayload(m, m'', d))
  {
    var m' := WithAlignByte(m, c);
    var m'' := CopiedByWords(m', c.Payload(), b.Payload(), b.req);
    var i, j := Position(runs, b);
    var k, l := Position(runs, c);
    MoveKeepsContents(m', runs, i, j, k, l);
    forall d: Block | d in LiveBlocks(runs) && d != c ensures SamePayload(m, m'', d) {
      var x, y := Position(runs, d);
      AlignByteOutsidePayloads(m, runs, k, l, x, y);
      SamePayloadTransitive(m, m', m'', d);
    }
    AlignByteOutsidePayloads(m, runs, k, l, i, j);
    MovedFromSame(m, m', m'', b, c.Payload());
  }

  // The same seen from the runs before c was placed: all blocks live then keep their payloads.
  lemma {:induction false} MoveToNewBlock(m: Bytes, runs: seq<Run>, rs: seq<Run>, b: Block, c: Block)
    requires Sound(rs) && LiveBlocks(rs) == LiveBlocks(runs) + {c} && c !in LiveBlocks(runs)
    requires b in LiveBlocks(runs) && b.req <= c.req && AlignBytesShow(WithAlignByte(m, c), rs)
    ensures var m'' := CopiedByWords(WithAlignByte(m, c), c.Payload(), b.Payload(), b.req);
            && AlignBytesShow(m'', rs) && b in LiveBlocks(rs) && MovedTo(m, m'', b, c.Payload())
            && (forall d: Block | d in LiveBlocks(runs) :: SamePayload(m, m'', d))
  {
    MoveToBlock(m, rs, b, c);
  }

  // No run reaches down into the first n bytes of the address space.
  ghost predicate Spared(runs: seq<Run>, n: nat) {
    forall i: nat | i < |runs| :: runs[i].addr >= n
  }

  // A copy to address 0 that stays below every run changes no payload and no alignment byte.
  lemma {:induction false} MoveToNull(m: Bytes, runs: seq<Run>, b: Block)
    requires Sound(runs) && AlignBytesShow(m, runs) && b in LiveBlocks(runs) && Spared(runs, b.req)
    ensures var m'' := CopiedByWords(m, 0, b.Payload(), b.req);
            AlignBytesShow(m'', runs) && forall d: Block | d in LiveBlocks(runs) :: SamePayload(m, m'', d)
  {
    var m'' := CopiedByWords(m, 0, b.Payload(), b.req);
    var i, j := Position(runs, b);
    assert RunSound(runs, i);
    WordsEqualBytes(m, 0, b.Payload(), b.req);
    forall a: nat | a >= b.req ensures ByteAt(m'', a) == ByteAt(m, a) {
      CopiedAt(m, 0, b.Payload(), b.req, a);
    }
    forall k: nat, l: nat | At(runs, k, l) ensures AlignByteShows(m'', runs[k].blocks[l]) {
      assert RunSound(runs, k) && AlignByteShows(m, runs[k].blocks[l]);
    }
    forall d: Block | d in LiveBlocks(runs) ensures SamePayload(m, m'', d) {
      var k, l := Position(runs, d);
      assert RunSound(runs, k);
    }
  }

  lemma {:induction false} Position(runs: seq<Run>, b: Block) returns (i: nat, j: nat)
    requires b in LiveBlocks(runs)
    ensures At(runs, i, j) && runs[i].blocks[j] == b
  {
    i, j :| At(runs, i, j) && runs[i].blocks[j] == b;
  }
}
