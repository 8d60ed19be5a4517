// What the transform loops guarantee when they are truncated, pruned by an error bitfield or
// run one after the other.
module PrunedLoops {

  import opened BitXor
  import opened Shards
  import opened Transform
  import opened ForwardLoops
  import opened InverseLoops
  import opened ErrorBits
  import opened ErrorBitfields

  // ---------- Truncation ----------

  lemma TruncationCovers(mtrunc: nat)
    ensures Covers((k: nat, p: nat) => At(p, k) < mtrunc, (_: nat, _: nat) => true, mtrunc)
  {
    hide At;
    forall k: nat, p: nat | At(p, k) < mtrunc ensures At(p / 2, k + 1) < mtrunc {
      AtHalf(p / 2, k + 1);
      AtMonotonic(2 * (p / 2), p, k);
    }
  }

  // fftDIT8 and fftDIT: the first mtrunc outputs are those of the whole transform.
  method FftTruncated(t: Leopard, work: array<Shard>, mtrunc: nat, m: nat, mipLevel: nat)
    requires m == Pow2(mipLevel) && mtrunc <= m <= work.Length && m <= |t.skew| + 1
    modifies work
    ensures SameSizes(old(work[..]), work[..])
    ensures work[..mtrunc] == t.Fft(old(work[..m]), mipLevel, 0)[..mtrunc]
    ensures forall j | m <= j < work.Length :: work[j] == old(work[j])
  {
    hide Leopard.Fft, Covers, Pow2;
    TruncationCovers(mtrunc);
    ghost var act: (nat, nat) -> bool := (k: nat, p: nat) => At(p, k) < mtrunc;
    FftDit(t, work, mtrunc, m, mipLevel, (_: nat, _: nat) => true, act);
    forall i | 0 <= i < mtrunc ensures act(0, i) {
      AtZero(i);
    }
  }

  // fftDIT8 after ifftDITDecoder8, without truncation, restores every shard.
  method InverseThenForward(t: Leopard, work: array<Shard>, m: nat, mipLevel: nat, ghost size: nat)
    requires m == Pow2(mipLevel) && m <= work.Length && m <= |t.skew| + 1
    requires t.KeepsLength() && Uniform(work[..m], size)
    modifies work
    ensures work[..] == old(work[..])
  {
    hide Leopard.Fft, Leopard.Ifft, Leopard.KeepsLength, Pow2;
    ghost var before := work[..m];
    IfftDit(t, m, work, m, 0, mipLevel, size);
    FftTruncated(t, work, m, m, mipLevel);
    t.FftIfft(before, mipLevel, 0, size);
    SameEverywhere(work[..], old(work[..]), m);
  }

  method ForwardThenInverse(t: Leopard, work: array<Shard>, m: nat, mipLevel: nat, ghost size: nat)
    requires m == Pow2(mipLevel) && m <= work.Length && m <= |t.skew| + 1
    requires t.KeepsLength() && Uniform(work[..m], size)
    modifies work
    ensures work[..] == old(work[..])
  {
    hide Leopard.Fft, Leopard.Ifft, Leopard.KeepsLength, Pow2;
    ghost var before := work[..m];
    FftTruncated(t, work, m, m, mipLevel);
    assert work[..m] == t.Fft(before, mipLevel, 0);
    IfftDit(t, m, work, m, 0, mipLevel, size);
    t.IfftFft(before, mipLevel, 0, size);
    SameEverywhere(work[..], old(work[..]), m);
  }

  lemma SameEverywhere<T>(a: seq<T>, b: seq<T>, m: nat)
    requires |a| == |b| && m <= |a| && a[..m] == b[..m] && forall j | m <= j < |a| :: a[j] == b[j]
    ensures a == b
  {
    assert forall j | 0 <= j < m :: a[j] == a[..m][j] && b[j] == b[..m][j];
  }

  // ---------- Pruning ----------

  // Blocks with a marked position below mtrunc must be right.
  ghost predicate Wanted(marked: set<nat>, mtrunc: nat, k: nat, p: nat) {
    exists i :: i in marked && i < mtrunc && Block(i, k) == p
  }

  lemma WantedUp(marked: set<nat>, mtrunc: nat, k: nat, p: nat)
    requires Wanted(marked, mtrunc, k, p)
    ensures At(p, k) < mtrunc && Wanted(marked, mtrunc, k + 1, p / 2) && Hit(marked, k, p)
  {
    hide Block, At;
    var i :| i in marked && i < mtrunc && Block(i, k) == p;
    BlockHalves(i, k);
    BlockStart(i, k);
  }

  lemma BlockStart(i: nat, k: nat)
    ensures At(Block(i, k), k) <= i && Block(At(Block(i, k), k), k) == Block(i, k)
  {
    var d, q := Pow2(k), Block(i, k);
    hide Pow2;
    assert i == d * q + i % d;
    assert At(q, k) == d * q;
    QuotientIs(d * q, d, q, 0);
  }

  lemma WantedStart(marked: set<nat>, mtrunc: nat, k: nat, p: nat)
    requires Wanted(marked, mtrunc, k, p)
    ensures Block(At(p, k), k) == p
  {
    hide Block, At;
    var i :| i in marked && i < mtrunc && Block(i, k) == p;
    BlockStart(i, k);
  }

  lemma Pruned8Covers(words: seq<seq<Word>>, marked: set<nat>, mtrunc: nat)
    requires Ready8(words, marked) && mtrunc <= 256
    ensures Covers((k: nat, p: nat) => Wanted(marked, mtrunc, k, p), (k: nat, r: nat) => Needed8(words, k, r), mtrunc)
  {
    hide At, Wanted, Ready8, Needed8, Hit, Block;
    assert Grid(words, 7, 4) by {
      Ready8Grid(words, marked);
    }
    forall k: nat, p: nat | Wanted(marked, mtrunc, k, p)
      ensures At(p, k) < mtrunc && Wanted(marked, mtrunc, k + 1, p / 2)
      ensures Needed8(words, k, At(p, k))
    {
      WantedUp(marked, mtrunc, k, p);
      WantedStart(marked, mtrunc, k, p);
      Needed8MeansHit(words, marked, k, At(p, k));
    }
  }

  lemma Ready8Grid(words: seq<seq<Word>>, marked: set<nat>)
    requires Ready8(words, marked)
    ensures Grid(words, 7, 4)
  {
  }

  // errorBitfield8.fftDIT8: every marked position below mtrunc gets its value in the whole
  // transform.
  method FftPruned8(t: Leopard, work: array<Shard>, mtrunc: nat, m: nat, mipLevel: nat, e: ErrorBitfield8)
    requires m == Pow2(mipLevel) && mtrunc <= m <= work.Length && m <= |t.skew| + 1 && m <= 256
    requires e.Ready()
    modifies work
    ensures SameSizes(old(work[..]), work[..])
    ensures forall i | i in e.marked && i < mtrunc :: work[i] == t.Fft(old(work[..m]), mipLevel, 0)[i]
    ensures forall j | m <= j < work.Length :: work[j] == old(work[j])
  {
    hide Leopard.Fft, Covers, Pow2, Needed8, Ready8;
    ghost var marked := e.marked;
    var words := e.words;
    Ready8Grid(words, marked);
    Pruned8Covers(words, marked, mtrunc);
    FftDit(t, work, mtrunc, m, mipLevel, (k: nat, r: nat) => Needed8(words, k, r),
           (k: nat, p: nat) => Wanted(marked, mtrunc, k, p));
    forall i | i in marked && i < mtrunc ensures Wanted(marked, mtrunc, 0, i) {
      BlockZero(i);
    }
  }

  lemma Ready16Grid(e: Tiers, marked: set<nat>)
    requires Ready16(e, marked)
    ensures TierGrid(e)
  {
  }

  lemma Pruned16Covers(e: Tiers, marked: set<nat>, mtrunc: nat)
    requires Ready16(e, marked) && mtrunc <= 65536
    ensures TierGrid(e)
    ensures Covers((k: nat, p: nat) => Wanted(marked, mtrunc, k, p), (k: nat, r: nat) => Needed16(e, k, r), mtrunc)
  {
    hide At, Wanted, Ready16, Needed16, Hit, Block;
    Ready16Grid(e, marked);
    forall k: nat, p: nat | Wanted(marked, mtrunc, k, p)
      ensures At(p, k) < mtrunc && Wanted(marked, mtrunc, k + 1, p / 2)
      ensures Needed16(e, k, At(p, k))
    {
      WantedUp(marked, mtrunc, k, p);
      WantedStart(marked, mtrunc, k, p);
      Needed16MeansHit(e, marked, k, At(p, k));
    }
  }

  // errorBitfield.fftDIT
  method FftPruned16(t: Leopard, work: array<Shard>, mtrunc: nat, m: nat, mipLevel: nat, e: ErrorBitfield16)
    requires m == Pow2(mipLevel) && mtrunc <= m <= work.Length && m <= |t.skew| + 1 && m <= 65536
    requires e.Ready()
    modifies work
    ensures SameSizes(old(work[..]), work[..])
    ensures forall i | i in e.marked && i < mtrunc :: work[i] == t.Fft(old(work[..m]), mipLevel, 0)[i]
    ensures forall j | m <= j < work.Length :: work[j] == old(work[j])
  {
    hide Leopard.Fft, Covers, Pow2, Needed16, Ready16;
    ghost var marked := e.marked;
    var tiers := e.tiers;
    Ready16Grid(tiers, marked);
    Pruned16Covers(tiers, marked, mtrunc);
    FftDit(t, work, mtrunc, m, mipLevel, (k: nat, r: nat) => Needed16(tiers, k, r),
           (k: nat, p: nat) => Wanted(marked, mtrunc, k, p));
    forall i | i in marked && i < mtrunc ensures Wanted(marked, mtrunc, 0, i) {
      BlockZero(i);
    }
  }
}
