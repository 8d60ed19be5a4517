// fftDIT and fftDIT8, and their pruned forms on the error bitfields: in-place loops that
// unroll two layers at a time, proved against the transform by halves.
module ForwardLoops {

  import opened BitXor
  import opened Shards
  import opened Transform

  // Where block p of 2^k shards starts.
  function At(p: nat, k: nat): nat {
    p * Pow2(k)
  }

  // ---------- One butterfly ----------

  // fftDIT2, or sliceXor alone when the factor is zero.
  method Butterfly(t: Leopard, work: array<Shard>, x: nat, y: nat, s: nat)
    requires x < work.Length && y < work.Length && x != y && s < |t.skew|
    modifies work
    ensures SameSizes(old(work[..]), work[..])
    ensures work[x] == Xor2(old(work[x]), t.Twiddle(s, old(work[y])))
    ensures work[y] == Xor2(old(work[y]), work[x])
    ensures forall i | 0 <= i < work.Length && i != x && i != y :: work[i] == old(work[i])
  {
    hide Xor2;
    if t.skew[s] == t.modulus {
      ClearChangesNothing(work[x], |work[y]|);
    } else {
      work[x] := Xor2(work[x], t.mul(t.skew[s], work[y]));
    }
    work[y] := Xor2(work[y], work[x]);
  }

  lemma ClearChangesNothing(a: Shard, n: nat)
    ensures Xor2(a, Clear(n)) == a
  {
    if |a| == n {
      hide Xor2;
      Xor2Laws(a, a, a);
    }
  }

  // ---------- Two layers at once ----------

  datatype Quad = Quad(x0: Shard, x1: Shard, x2: Shard, x3: Shard)

  // The four shards after both layers, the first with s02, the second with s01 and s23.
  function Down4(t: Leopard, x: Quad, s01: nat, s23: nat, s02: nat): Quad
    requires s01 < |t.skew| && s23 < |t.skew| && s02 < |t.skew|
  {
    var y0, y1 := Xor2(x.x0, t.Twiddle(s02, x.x2)), Xor2(x.x1, t.Twiddle(s02, x.x3));
    var y2, y3 := Xor2(x.x2, y0), Xor2(x.x3, y1);
    var z0, z2 := Xor2(y0, t.Twiddle(s01, y1)), Xor2(y2, t.Twiddle(s23, y3));
    Quad(z0, Xor2(y1, z0), z2, Xor2(y3, z2))
  }

  // fftDIT4Ref
  method FftDit4(t: Leopard, work: array<Shard>, i: nat, dist: nat, s01: nat, s23: nat, s02: nat)
    requires dist > 0 && i + 3 * dist < work.Length
    requires s01 < |t.skew| && s23 < |t.skew| && s02 < |t.skew|
    modifies work
    ensures SameSizes(old(work[..]), work[..])
    ensures Quad(work[i], work[i + dist], work[i + 2 * dist], work[i + 3 * dist])
         == Down4(t, old(Quad(work[i], work[i + dist], work[i + 2 * dist], work[i + 3 * dist])), s01, s23, s02)
    ensures forall j | 0 <= j < work.Length && j != i && j != i + dist && j != i + 2 * dist && j != i + 3 * dist ::
      work[j] == old(work[j])
  {
    hide Xor2, Leopard.Twiddle;
    Butterfly(t, work, i, i + 2 * dist, s02);
    Butterfly(t, work, i + dist, i + 3 * dist, s02);
    Butterfly(t, work, i, i + dist, s01);
    Butterfly(t, work, i + 2 * dist, i + 3 * dist, s23);
  }

  lemma ButterfliesJoin(t: Leopard, a: seq<Shard>, a': seq<Shard>, b: seq<Shard>, b': seq<Shard>, s: nat)
    requires |a| == |b| && |a'| == |b'| && s < |t.skew|
    ensures t.LowDown(a + a', b + b', s) == t.LowDown(a, b, s) + t.LowDown(a', b', s)
    ensures t.HighDown(a + a', b + b', s) == t.HighDown(a, b, s) + t.HighDown(a', b', s)
  {
    hide Xor2, Leopard.Twiddle;
  }

  // Two levels of the definition on four quarters.
  lemma FftTwoLevels(t: Leopard, b0: seq<Shard>, b1: seq<Shard>, b2: seq<Shard>, b3: seq<Shard>, k: nat, off: nat)
    requires k >= 2 && |b0| == |b1| == |b2| == |b3| == Pow2(k - 2) && off + 4 * |b0| <= |t.skew| + 1
    ensures Pow2(k) == 4 * |b0| && |b0| > 0
    ensures var d := |b0|;
            var y0, y1 := t.LowDown(b0, b2, off + 2 * d - 1), t.LowDown(b1, b3, off + 2 * d - 1);
            var y2, y3 := t.HighDown(b0, b2, off + 2 * d - 1), t.HighDown(b1, b3, off + 2 * d - 1);
            t.Fft(b0 + b1 + b2 + b3, k, off)
            == t.Fft(t.LowDown(y0, y1, off + d - 1), k - 2, off)
             + t.Fft(t.HighDown(y0, y1, off + d - 1), k - 2, off + d)
             + (t.Fft(t.LowDown(y2, y3, off + 3 * d - 1), k - 2, off + 2 * d)
              + t.Fft(t.HighDown(y2, y3, off + 3 * d - 1), k - 2, off + 3 * d))
  {
    hide *;
    PowStep(k);
    PowStep(k - 1);
    var d := |b0|;
    var a, c, s := b0 + b1, b2 + b3, off + 2 * d - 1;
    assert b0 + b1 + b2 + b3 == a + c;
    t.FftStep(a + c, k, off, 2 * d);
    Halves(a, c);
    ButterfliesJoin(t, b0, b1, b2, b3, s);
    var y0, y1, y2, y3 := t.LowDown(b0, b2, s), t.LowDown(b1, b3, s), t.HighDown(b0, b2, s), t.HighDown(b1, b3, s);
    t.FftStep(y0 + y1, k - 1, off, d);
    Halves(y0, y1);
    t.FftStep(y2 + y3, k - 1, off + 2 * d, d);
    Halves(y2, y3);
  }

  // Position i of the block at r has been through both layers.
  ghost predicate DoneAt(t: Leopard, before: seq<Shard>, after: seq<Shard>, r: nat, d: nat, i: nat)
    requires |before| == |after| && i + 3 * d < |before| && d > 0 && r + 3 * d <= |t.skew|
  {
    Quad(after[i], after[i + d], after[i + 2 * d], after[i + 3 * d])
    == Down4(t, Quad(before[i], before[i + d], before[i + 2 * d], before[i + 3 * d]),
             r + d - 1, r + 3 * d - 1, r + 2 * d - 1)
  }

  ghost predicate KeptAt(before: seq<Shard>, after: seq<Shard>, d: nat, i: nat)
    requires |before| == |after| && i + 3 * d < |before|
  {
    after[i] == before[i] && after[i + d] == before[i + d]
    && after[i + 2 * d] == before[i + 2 * d] && after[i + 3 * d] == before[i + 3 * d]
  }

  // The loop over the quadruples of the block at r.
  method FftBlock(t: Leopard, work: array<Shard>, r: nat, dist: nat)
    requires dist > 0 && r + 4 * dist <= work.Length && r + 3 * dist <= |t.skew|
    modifies work
    ensures SameSizes(old(work[..]), work[..])
    ensures forall i | r <= i < r + dist :: DoneAt(t, old(work[..]), work[..], r, dist, i)
    ensures forall j | 0 <= j < work.Length && (j < r || j >= r + 4 * dist) :: work[j] == old(work[j])
  {
    hide Down4;
    ghost var before := work[..];
    var iend := r + dist;
    var log01, log02, log23 := iend - 1, iend + dist - 1, iend + dist * 2 - 1;
    for i := r to iend
      invariant forall j | r <= j < i :: DoneAt(t, before, work[..], r, dist, j)
      invariant forall j | i <= j < iend :: KeptAt(before, work[..], dist, j)
      invariant forall j | 0 <= j < work.Length && (j < r || j >= r + 4 * dist) :: work[j] == before[j]
      invariant SameSizes(before, work[..])
    {
      ghost var now := work[..];
      assert KeptAt(before, now, dist, i);
      FftDit4(t, work, i, dist, log01, log23, log02);
      SameSizesAfter(before, now, work[..]);
      BlockProgress(t, before, now, work[..], r, dist, i);
    }
  }

  lemma SameSizesAfter(u: seq<Shard>, v: seq<Shard>, w: seq<Shard>)
    requires SameSizes(u, v) && SameSizes(v, w)
    ensures SameSizes(u, w)
  {
  }

  // One more quadruple of the block at r is done.
  lemma BlockProgress(t: Leopard, before: seq<Shard>, now: seq<Shard>, after: seq<Shard>, r: nat, d: nat, i: nat)
    requires d > 0 && |before| == |now| == |after| && r <= i < r + d && r + 4 * d <= |before| && r + 3 * d <= |t.skew|
    requires Quad(after[i], after[i + d], after[i + 2 * d], after[i + 3 * d])
          == Down4(t, Quad(now[i], now[i + d], now[i + 2 * d], now[i + 3 * d]), r + d - 1, r + 3 * d - 1, r + 2 * d - 1)
    requires forall j | 0 <= j < |now| && j != i && j != i + d && j != i + 2 * d && j != i + 3 * d ::
      after[j] == now[j]
    requires forall j | r <= j < i :: DoneAt(t, before, now, r, d, j)
    requires forall j | i <= j < r + d :: KeptAt(before, now, d, j)
    ensures forall j | r <= j < i + 1 :: DoneAt(t, before, after, r, d, j)
    ensures forall j | i + 1 <= j < r + d :: KeptAt(before, after, d, j)
  {
    hide Down4;
    assert KeptAt(before, now, d, i);
    forall j | r <= j < r + d && j != i ensures KeptAt(now, after, d, j) {
    }
    forall j | r <= j < i ensures DoneAt(t, before, after, r, d, j) {
      assert DoneAt(t, before, now, r, d, j) && KeptAt(now, after, d, j);
    }
    forall j | i + 1 <= j < r + d ensures KeptAt(before, after, d, j) {
      assert KeptAt(before, now, d, j) && KeptAt(now, after, d, j);
    }
  }

  // The transform of the block of 2^k shards at lo.
  function FftAt(t: Leopard, w: seq<Shard>, k: nat, lo: nat): (r: seq<Shard>)
    requires lo + Pow2(k) <= |w| && lo + Pow2(k) <= |t.skew| + 1
    ensures |r| == Pow2(k)
  {
    t.Fft(w[lo..lo + Pow2(k)], k, lo)
  }

  // The transforms of four blocks in a row.
  function FourAt(t: Leopard, w: seq<Shard>, k: nat, r: nat, d: nat): seq<Shard>
    requires Pow2(k) == d && r + 4 * d <= |w| && r + 4 * d <= |t.skew| + 1
  {
    FftAt(t, w, k, r) + FftAt(t, w, k, r + d) + (FftAt(t, w, k, r + 2 * d) + FftAt(t, w, k, r + 3 * d))
  }

  // What the block loop leaves is two levels of the definition.
  lemma BlockTwoLevels(t: Leopard, before: seq<Shard>, after: seq<Shard>, k: nat, r: nat, d: nat)
    requires k >= 2 && d == Pow2(k - 2) > 0 && Pow2(k) == 4 * d
    requires |before| == |after| && r + 4 * d <= |before| && r + 4 * d <= |t.skew| + 1
    requires forall i | r <= i < r + d :: DoneAt(t, before, after, r, d, i)
    ensures FftAt(t, before, k, r) == FourAt(t, after, k - 2, r, d)
  {
    hide Leopard.Fft, Leopard.LowDown, Leopard.HighDown, DoneAt, Pow2;
    var b0, b1 := before[r..r + d], before[r + d..r + 2 * d];
    var b2, b3 := before[r + 2 * d..r + 3 * d], before[r + 3 * d..r + 4 * d];
    FftTwoLevels(t, b0, b1, b2, b3, k, r);
    FourQuarters(before, r, d);
    var a0, a1 := after[r..r + d], after[r + d..r + 2 * d];
    var a2, a3 := after[r + 2 * d..r + 3 * d], after[r + 3 * d..r + 4 * d];
    QuartersMatch(t, before, after, r, d, b0, b1, b2, b3, a0, a1, a2, a3);
  }

  lemma FourQuarters<T>(w: seq<T>, r: nat, d: nat)
    requires r + 4 * d <= |w|
    ensures w[r..r + 4 * d]
         == w[r..r + d] + w[r + d..r + 2 * d] + w[r + 2 * d..r + 3 * d] + w[r + 3 * d..r + 4 * d]
  {
    assert w[r..r + 2 * d] == w[r..r + d] + w[r + d..r + 2 * d];
    assert w[r..r + 3 * d] == w[r..r + 2 * d] + w[r + 2 * d..r + 3 * d];
    assert w[r..r + 4 * d] == w[r..r + 3 * d] + w[r + 3 * d..r + 4 * d];
  }

  // The functions on quarters compute the quadruples.
  lemma QuarterEntry(t: Leopard, b0: seq<Shard>, b1: seq<Shard>, b2: seq<Shard>, b3: seq<Shard>,
                     s01: nat, s23: nat, s02: nat, i: nat)
    requires |b0| == |b1| == |b2| == |b3| && i < |b0|
    requires s01 < |t.skew| && s23 < |t.skew| && s02 < |t.skew|
    ensures var y0, y1 := t.LowDown(b0, b2, s02), t.LowDown(b1, b3, s02);
            var y2, y3 := t.HighDown(b0, b2, s02), t.HighDown(b1, b3, s02);
            Down4(t, Quad(b0[i], b1[i], b2[i], b3[i]), s01, s23, s02)
            == Quad(t.LowDown(y0, y1, s01)[i], t.HighDown(y0, y1, s01)[i],
                    t.LowDown(y2, y3, s23)[i], t.HighDown(y2, y3, s23)[i])
  {
    hide Xor2, Leopard.Twiddle;
  }

  lemma DoneEntry(t: Leopard, before: seq<Shard>, after: seq<Shard>, r: nat, d: nat, i: nat)
    requires |before| == |after| && i + 3 * d < |before| && d > 0 && r + 3 * d <= |t.skew|
    requires DoneAt(t, before, after, r, d, i)
    ensures Quad(after[i], after[i + d], after[i + 2 * d], after[i + 3 * d])
         == Down4(t, Quad(before[i], before[i + d], before[i + 2 * d], before[i + 3 * d]),
                  r + d - 1, r + 3 * d - 1, r + 2 * d - 1)
  {
    hide Down4;
  }

  lemma QuartersMatch(t: Leopard, before: seq<Shard>, after: seq<Shard>, r: nat, d: nat,
                      b0: seq<Shard>, b1: seq<Shard>, b2: seq<Shard>, b3: seq<Shard>,
                      a0: seq<Shard>, a1: seq<Shard>, a2: seq<Shard>, a3: seq<Shard>)
    requires d > 0 && |before| == |after| && r + 4 * d <= |before| && r + 4 * d <= |t.skew| + 1
    requires forall i | r <= i < r + d :: DoneAt(t, before, after, r, d, i)
    requires b0 == before[r..r + d] && b1 == before[r + d..r + 2 * d]
    requires b2 == before[r + 2 * d..r + 3 * d] && b3 == before[r + 3 * d..r + 4 * d]
    requires a0 == after[r..r + d] && a1 == after[r + d..r + 2 * d]
    requires a2 == after[r + 2 * d..r + 3 * d] && a3 == after[r + 3 * d..r + 4 * d]
    ensures var s := r + 2 * d - 1;
            var y0, y1 := t.LowDown(b0, b2, s), t.LowDown(b1, b3, s);
            var y2, y3 := t.HighDown(b0, b2, s), t.HighDown(b1, b3, s);
            && a0 == t.LowDown(y0, y1, r + d - 1) && a1 == t.HighDown(y0, y1, r + d - 1)
            && a2 == t.LowDown(y2, y3, r + 3 * d - 1) && a3 == t.HighDown(y2, y3, r + 3 * d - 1)
  {
    hide Leopard.LowDown, Leopard.HighDown, Down4, DoneAt;
    var s := r + 2 * d - 1;
    var y0, y1, y2, y3 := t.LowDown(b0, b2, s), t.LowDown(b1, b3, s), t.HighDown(b0, b2, s), t.HighDown(b1, b3, s);
    var s01, s23 := r + d - 1, r + 3 * d - 1;
    forall i | 0 <= i < d
      ensures a0[i] == t.LowDown(y0, y1, s01)[i] && a1[i] == t.HighDown(y0, y1, s01)[i]
      ensures a2[i] == t.LowDown(y2, y3, s23)[i] && a3[i] == t.HighDown(y2, y3, s23)[i]
    {
      DoneEntry(t, before, after, r, d, r + i);
      QuarterEntry(t, b0, b1, b2, b3, s01, s23, s, i);
    }
  }

  // ---------- Positions of blocks ----------

  lemma AtNext(q: nat, k: nat)
    ensures At(q + 1, k) == At(q, k) + Pow2(k) && At(0, k) == 0
  {
  }

  lemma {:induction false} AtMonotonic(p: nat, q: nat, k: nat)
    requires p <= q
    ensures At(p, k) <= At(q, k)
    decreases q - p
  {
    if p < q {
      AtMonotonic(p, q - 1, k);
      AtNext(q - 1, k);
    }
  }

  lemma AtQuarter(q: nat, k: nat)
    requires k >= 2
    ensures Pow2(k) == 4 * Pow2(k - 2)
    ensures At(4 * q, k - 2) == At(q, k)
    ensures At(4 * q + 1, k - 2) == At(q, k) + Pow2(k - 2)
    ensures At(4 * q + 2, k - 2) == At(q, k) + 2 * Pow2(k - 2)
    ensures At(4 * q + 3, k - 2) == At(q, k) + 3 * Pow2(k - 2)
  {
    PowStep(k);
    PowStep(k - 1);
    hide Pow2;
    var d := Pow2(k - 2);
    assert Pow2(k) == 4 * d;
    assert q * (4 * d) == 4 * (q * d);
    assert (4 * q) * d == 4 * (q * d) && (4 * q + 1) * d == 4 * (q * d) + d;
    assert (4 * q + 2) * d == 4 * (q * d) + 2 * d && (4 * q + 3) * d == 4 * (q * d) + 3 * d;
  }

  lemma AtHalf(q: nat, k: nat)
    requires k >= 1
    ensures Pow2(k) == 2 * Pow2(k - 1)
    ensures At(2 * q, k - 1) == At(q, k) && At(2 * q + 1, k - 1) == At(q, k) + Pow2(k - 1)
  {
    PowStep(k);
    hide Pow2;
    var d := Pow2(k - 1);
    assert q * (2 * d) == 2 * (q * d);
    assert (2 * q) * d == 2 * (q * d) && (2 * q + 1) * d == 2 * (q * d) + d;
  }

  // A block of 2^k that starts inside 2^n shards ends inside them.
  lemma {:induction false} AtFits(q: nat, k: nat, n: nat)
    requires k <= n && At(q, k) < Pow2(n)
    ensures At(q, k) + Pow2(k) <= Pow2(n)
    decreases n - k
  {
    if k < n {
      AtHalf(q / 2, k + 1);
      AtMonotonic(2 * (q / 2), q, k);
      AtFits(q / 2, k + 1, n);
    } else {
      AtNext(0, k);
      if q > 0 {
        AtMonotonic(1, q, k);
      }
    }
  }

  // ---------- Which blocks are kept ----------

  // act(k, p) says that block p of level k must be right. Such a block is needed by the
  // pruning test, starts before mtrunc, and lies in a block that must be right as well.
  ghost predicate Covers(act: (nat, nat) -> bool, needed: (nat, nat) -> bool, mtrunc: nat) {
    forall k: nat, p: nat {:trigger act(k, p)} | act(k, p) ::
      At(p, k) < mtrunc && act(k + 1, p / 2) && (k > 0 ==> needed(k, At(p, k)))
  }

  lemma ActUp(act: (nat, nat) -> bool, needed: (nat, nat) -> bool, mtrunc: nat, k: nat, p: nat)
    requires Covers(act, needed, mtrunc) && act(k, p)
    ensures At(p, k) < mtrunc && (k > 0 ==> needed(k, At(p, k))) && act(k + 1, p / 2)
  {
  }

  lemma ActParent(act: (nat, nat) -> bool, needed: (nat, nat) -> bool, mtrunc: nat, k: nat, p: nat)
    requires Covers(act, needed, mtrunc) && act(k, p)
    ensures At(p, k) < mtrunc && (k > 0 ==> needed(k, At(p, k)))
    ensures act(k + 1, p / 2) && act(k + 2, p / 4)
  {
    hide Covers, At;
    ActUp(act, needed, mtrunc, k, p);
    ActUp(act, needed, mtrunc, k + 1, p / 2);
    assert p / 2 / 2 == p / 4;
  }

  // Transforming what is left of a block gives its part of the whole transform.
  ghost predicate BlockRight(t: Leopard, w: seq<Shard>, g: seq<Shard>, k: nat, lo: nat) {
    && lo + Pow2(k) <= |w| && lo + Pow2(k) <= |g| && lo + Pow2(k) <= |t.skew| + 1
    && FftAt(t, w, k, lo) == g[lo..lo + Pow2(k)]
  }

  ghost predicate RightBefore(t: Leopard, w: seq<Shard>, g: seq<Shard>, k: nat, act: (nat, nat) -> bool, end: nat) {
    forall p: nat | p < end && act(k, p) :: BlockRight(t, w, g, k, At(p, k))
  }

  ghost predicate RightFrom(t: Leopard, w: seq<Shard>, g: seq<Shard>, k: nat, act: (nat, nat) -> bool, start: nat) {
    forall p: nat | p >= start && act(k, p) :: BlockRight(t, w, g, k, At(p, k))
  }

  lemma BlockRightFrame(t: Leopard, w: seq<Shard>, w': seq<Shard>, g: seq<Shard>, k: nat, lo: nat)
    requires BlockRight(t, w, g, k, lo) && |w'| == |w|
    requires forall i | lo <= i < lo + Pow2(k) :: w'[i] == w[i]
    ensures BlockRight(t, w', g, k, lo)
  {
    hide Leopard.Fft;
    assert w'[lo..lo + Pow2(k)] == w[lo..lo + Pow2(k)];
  }

  // Doing block q moves the boundary between the two levels past it.
  lemma BlockSplit(t: Leopard, w: seq<Shard>, w': seq<Shard>, g: seq<Shard>, k: nat, lo: nat, d: nat)
    requires k >= 2 && d == Pow2(k - 2) && Pow2(k) == 4 * d && |w'| == |w| && BlockRight(t, w, g, k, lo)
    requires forall i | lo <= i < lo + d :: DoneAt(t, w, w', lo, d, i)
    ensures && BlockRight(t, w', g, k - 2, lo) && BlockRight(t, w', g, k - 2, lo + d)
            && BlockRight(t, w', g, k - 2, lo + 2 * d) && BlockRight(t, w', g, k - 2, lo + 3 * d)
  {
    hide FftAt, DoneAt, Pow2;
    BlockTwoLevels(t, w, w', k, lo, d);
    var f0, f1 := FftAt(t, w', k - 2, lo), FftAt(t, w', k - 2, lo + d);
    var f2, f3 := FftAt(t, w', k - 2, lo + 2 * d), FftAt(t, w', k - 2, lo + 3 * d);
    FourQuarters(g, lo, d);
    Concat4(f0, f1, f2, f3, g[lo..lo + d], g[lo + d..lo + 2 * d], g[lo + 2 * d..lo + 3 * d], g[lo + 3 * d..lo + 4 * d]);
  }

  lemma Concat4<T>(a: seq<T>, b: seq<T>, c: seq<T>, d: seq<T>, a': seq<T>, b': seq<T>, c': seq<T>, d': seq<T>)
    requires |a| == |a'| && |b| == |b'| && |c| == |c'| && |d| == |d'|
    requires a + b + (c + d) == a' + b' + c' + d'
    ensures a == a' && b == b' && c == c' && d == d'
  {
    assert a' + b' + c' + d' == (a' + b') + (c' + d');
    Halves(a + b, c + d);
    Halves(a' + b', c' + d');
    Halves(a, b);
    Halves(a', b');
    Halves(c, d);
    Halves(c', d');
  }

  // ---------- The loops over blocks and layers ----------

  // Block q, done or skipped, at the boundary between level k and level k - 2.
  // The blocks of the lower level that have been done.
  lemma PastLower(t: Leopard, w: seq<Shard>, w': seq<Shard>, g: seq<Shard>, k: nat, q: nat, d: nat,
                  act: (nat, nat) -> bool, needed: (nat, nat) -> bool, mtrunc: nat, p: nat)
    requires k >= 2 && d == Pow2(k - 2) && Pow2(k) == 4 * d && |w| == |w'| && Covers(act, needed, mtrunc)
    requires RightBefore(t, w, g, k - 2, act, 4 * q) && RightFrom(t, w, g, k, act, q)
    requires forall j | 0 <= j < |w| && (j < At(q, k) || j >= At(q, k) + 4 * d) :: w'[j] == w[j]
    requires act(k, q) ==> At(q, k) + 4 * d <= |w| && At(q, k) + 3 * d <= |t.skew| && d > 0
    requires act(k, q) ==> forall i | At(q, k) <= i < At(q, k) + d :: DoneAt(t, w, w', At(q, k), d, i)
    requires p < 4 * (q + 1) && act(k - 2, p)
    ensures BlockRight(t, w', g, k - 2, At(p, k - 2))
  {
    hide At, Leopard.Fft, DoneAt, Covers, Pow2, FftAt;
    AtQuarter(q, k);
    var lower: nat := k - 2;
    if p < 4 * q {
      AtMonotonic(p + 1, 4 * q, lower);
      AtNext(p, lower);
      BlockRightFrame(t, w, w', g, lower, At(p, lower));
    } else {
      ActParent(act, needed, mtrunc, lower, p);
      assert p / 4 == q;
      BlockSplit(t, w, w', g, k, At(q, k), d);
      assert p == 4 * q || p == 4 * q + 1 || p == 4 * q + 2 || p == 4 * q + 3;
    }
  }

  // The blocks of the upper level that are still to be done.
  lemma PastUpper(t: Leopard, w: seq<Shard>, w': seq<Shard>, g: seq<Shard>, k: nat, q: nat, d: nat, p: nat)
    requires Pow2(k) == 4 * d && |w| == |w'| && p >= q + 1 && BlockRight(t, w, g, k, At(p, k))
    requires forall j | 0 <= j < |w| && (j < At(q, k) || j >= At(q, k) + 4 * d) :: w'[j] == w[j]
    ensures BlockRight(t, w', g, k, At(p, k))
  {
    hide At, Leopard.Fft, FftAt, Pow2;
    AtMonotonic(q + 1, p, k);
    AtNext(q, k);
    BlockRightFrame(t, w, w', g, k, At(p, k));
  }

  lemma StepPastBlock(t: Leopard, w: seq<Shard>, w': seq<Shard>, g: seq<Shard>, k: nat, q: nat, d: nat,
                      act: (nat, nat) -> bool, needed: (nat, nat) -> bool, mtrunc: nat)
    requires k >= 2 && d == Pow2(k - 2) && Pow2(k) == 4 * d && |w| == |w'| && Covers(act, needed, mtrunc)
    requires RightBefore(t, w, g, k - 2, act, 4 * q) && RightFrom(t, w, g, k, act, q)
    requires forall j | 0 <= j < |w| && (j < At(q, k) || j >= At(q, k) + 4 * d) :: w'[j] == w[j]
    requires act(k, q) ==> At(q, k) + 4 * d <= |w| && At(q, k) + 3 * d <= |t.skew| && d > 0
    requires act(k, q) ==> forall i | At(q, k) <= i < At(q, k) + d :: DoneAt(t, w, w', At(q, k), d, i)
    ensures RightBefore(t, w', g, k - 2, act, 4 * (q + 1)) && RightFrom(t, w', g, k, act, q + 1)
  {
    hide At, Leopard.Fft, DoneAt, Covers, Pow2, BlockRight;
    var lower: nat := k - 2;
    forall p: nat | p < 4 * (q + 1) && act(lower, p) ensures BlockRight(t, w', g, lower, At(p, lower)) {
      PastLower(t, w, w', g, k, q, d, act, needed, mtrunc, p);
    }
    forall p: nat | p >= q + 1 && act(k, p) ensures BlockRight(t, w', g, k, At(p, k)) {
      PastUpper(t, w, w', g, k, q, d, p);
    }
  }

  // The loop over the blocks of 4 * dist shards.
  method FftLevel(t: Leopard, work: array<Shard>, mtrunc: nat, dist: nat, k: nat, needed: (nat, nat) -> bool,
                  ghost n: nat, ghost g: seq<Shard>, ghost act: (nat, nat) -> bool)
    requires 2 <= k <= n && dist == Pow2(k - 2) && mtrunc <= Pow2(n) == |g| <= work.Length && |g| <= |t.skew| + 1
    requires Covers(act, needed, mtrunc)
    requires RightFrom(t, work[..], g, k, act, 0)
    modifies work
    ensures SameSizes(old(work[..]), work[..])
    ensures RightFrom(t, work[..], g, k - 2, act, 0)
    ensures forall j | |g| <= j < work.Length :: work[j] == old(work[j])
  {
    hide Leopard.Fft, DoneAt, Covers, Pow2, At, RightBefore, RightFrom, BlockRight;
    var r := 0;
    ghost var q := 0;
    AtNext(0, k);
    StartLevel(t, work[..], g, k, act);
    while r < mtrunc
      invariant r == At(q, k)
      invariant RightBefore(t, work[..], g, k - 2, act, 4 * q) && RightFrom(t, work[..], g, k, act, q)
      invariant forall j | |g| <= j < work.Length :: work[j] == old(work[j])
      invariant SameSizes(old(work[..]), work[..])
      decreases mtrunc - r
    {
      AtFits(q, k, n);
      AtQuarter(q, k);
      AtNext(q, k);
      PowPositive(k);
      ghost var before := work[..];
      if needed(k, r) {
        FftBlock(t, work, r, dist);
      } else {
        NotNeeded(act, needed, mtrunc, k, q);
      }
      StepPastBlock(t, before, work[..], g, k, q, dist, act, needed, mtrunc);
      r := r + 4 * dist;
      q := q + 1;
    }
    EndLevel(t, work[..], g, k, q, act, needed, mtrunc);
  }

  lemma PowPositive(k: nat)
    ensures Pow2(k) >= 1
  {
  }

  lemma NotNeeded(act: (nat, nat) -> bool, needed: (nat, nat) -> bool, mtrunc: nat, k: nat, q: nat)
    requires Covers(act, needed, mtrunc) && k > 0 && !needed(k, At(q, k))
    ensures !act(k, q)
  {
    if act(k, q) {
      ActParent(act, needed, mtrunc, k, q);
    }
  }

  lemma StartLevel(t: Leopard, w: seq<Shard>, g: seq<Shard>, k: nat, act: (nat, nat) -> bool)
    requires k >= 2
    ensures RightBefore(t, w, g, k - 2, act, 0)
  {
  }

  lemma EndLevel(t: Leopard, w: seq<Shard>, g: seq<Shard>, k: nat, q: nat,
                 act: (nat, nat) -> bool, needed: (nat, nat) -> bool, mtrunc: nat)
    requires k >= 2 && Covers(act, needed, mtrunc) && At(q, k) >= mtrunc
    requires RightBefore(t, w, g, k - 2, act, 4 * q)
    ensures RightFrom(t, w, g, k - 2, act, 0)
  {
    hide At, BlockRight, Covers, Pow2;
    var lower: nat := k - 2;
    forall p: nat | act(lower, p) ensures BlockRight(t, w, g, lower, At(p, lower)) {
      ActParent(act, needed, mtrunc, lower, p);
      if p >= 4 * q {
        AtMonotonic(4 * q, p, lower);
        AtQuarter(q, k);
        assert false;
      }
    }
  }

  lemma PairLevel(t: Leopard, x: Shard, y: Shard, r: nat)
    requires r < |t.skew|
    ensures Pow2(1) == 2 && Pow2(0) == 1
    ensures t.Fft([x, y], 1, r) == [Xor2(x, t.Twiddle(r, y)), Xor2(y, Xor2(x, t.Twiddle(r, y)))]
  {
    hide Xor2, Leopard.Twiddle;
    t.FftStep([x, y], 1, r, 1);
    assert [x, y][..1] == [x] && [x, y][1..] == [y];
  }

  lemma PowOne()
    ensures Pow2(1) == 2
  {
  }

  // The last loop, over pairs.
  method FftPairs(t: Leopard, work: array<Shard>, mtrunc: nat, needed: (nat, nat) -> bool,
                  ghost n: nat, ghost g: seq<Shard>, ghost act: (nat, nat) -> bool)
    requires 1 <= n && mtrunc <= Pow2(n) == |g| <= work.Length && |g| <= |t.skew| + 1
    requires Covers(act, needed, mtrunc)
    requires RightFrom(t, work[..], g, 1, act, 0)
    modifies work
    ensures SameSizes(old(work[..]), work[..])
    ensures forall i | 0 <= i < |g| && act(0, i) :: work[i] == g[i]
    ensures forall j | |g| <= j < work.Length :: work[j] == old(work[j])
  {
    hide Leopard.Fft, Covers, Pow2, At, RightFrom, BlockRight, Xor2, Leopard.Twiddle;
    var r := 0;
    ghost var q := 0;
    AtNext(0, 1);
    ghost var start := work[..];
    while r < mtrunc
      invariant r == At(q, 1) == 2 * q
      invariant forall i | 0 <= i < r && i < |g| && act(0, i) :: work[i] == g[i]
      invariant forall j | r <= j < work.Length || |g| <= j < work.Length :: work[j] == start[j]
      invariant SameSizes(start, work[..])
      decreases mtrunc - r
    {
      AtFits(q, 1, n);
      AtNext(q, 1);
      PowOne();
      ghost var x, y := work[r], work[r + 1];
      if needed(1, r) {
        Butterfly(t, work, r, r + 1, r);
        PairRight(t, start, g, act, needed, mtrunc, q, x, y);
      } else {
        NotNeeded(act, needed, mtrunc, 1, q);
        PairSkipped(act, needed, mtrunc, q);
      }
      r := r + 2;
      q := q + 1;
    }
    forall i | 0 <= i < |g| && act(0, i) ensures work[i] == g[i] {
      ActParent(act, needed, mtrunc, 0, i);
      AtZero(i);
    }
  }

  lemma AtZero(i: nat)
    ensures At(i, 0) == i
  {
  }

  lemma PairSkipped(act: (nat, nat) -> bool, needed: (nat, nat) -> bool, mtrunc: nat, q: nat)
    requires Covers(act, needed, mtrunc) && !act(1, q)
    ensures !act(0, 2 * q) && !act(0, 2 * q + 1)
  {
    hide Covers;
    if act(0, 2 * q) {
      ActParent(act, needed, mtrunc, 0, 2 * q);
    }
    if act(0, 2 * q + 1) {
      ActParent(act, needed, mtrunc, 0, 2 * q + 1);
    }
  }

  lemma PairRight(t: Leopard, w: seq<Shard>, g: seq<Shard>, act: (nat, nat) -> bool, needed: (nat, nat) -> bool,
                  mtrunc: nat, q: nat, x: Shard, y: Shard)
    requires Covers(act, needed, mtrunc) && RightFrom(t, w, g, 1, act, 0)
    requires At(q, 1) == 2 * q && 2 * q + 2 <= |w| && 2 * q + 2 <= |g| <= |t.skew| + 1
    requires w[2 * q] == x && w[2 * q + 1] == y
    ensures act(0, 2 * q) || act(0, 2 * q + 1) ==>
      g[2 * q] == Xor2(x, t.Twiddle(2 * q, y)) && g[2 * q + 1] == Xor2(y, Xor2(x, t.Twiddle(2 * q, y)))
  {
    hide Covers, At, Leopard.Fft, Xor2, Leopard.Twiddle;
    if act(0, 2 * q) || act(0, 2 * q + 1) {
      if !act(1, q) {
        PairSkipped(act, needed, mtrunc, q);
      }
      assert BlockRight(t, w, g, 1, At(q, 1));
      PairLevel(t, x, y, 2 * q);
      assert w[2 * q..2 * q + 2] == [x, y];
      assert g[2 * q..2 * q + 2] == [g[2 * q], g[2 * q + 1]];
    }
  }

  // fftDIT: m is a power of two and mipLevel its exponent. Every position that must be right
  // ends with its value in the whole transform, whatever blocks are skipped.
  method FftDit(t: Leopard, work: array<Shard>, mtrunc: nat, m: nat, mipLevel: nat, needed: (nat, nat) -> bool,
                ghost act: (nat, nat) -> bool)
    requires m == Pow2(mipLevel) && mtrunc <= m <= work.Length && m <= |t.skew| + 1
    requires Covers(act, needed, mtrunc)
    modifies work
    ensures SameSizes(old(work[..]), work[..])
    ensures forall i | 0 <= i < m && act(0, i) :: work[i] == t.Fft(old(work[..m]), mipLevel, 0)[i]
    ensures forall j | m <= j < work.Length :: work[j] == old(work[j])
  {
    hide Leopard.Fft, Covers, At, RightFrom;
    ghost var g := t.Fft(work[..m], mipLevel, 0);
    var dist4 := m;
    var dist := m / 4;
    var k: nat := mipLevel;
    WholeRight(t, work[..], g, mipLevel, act, needed, mtrunc);
    while dist != 0
      invariant k <= mipLevel && dist4 == Pow2(k) && dist == dist4 / 4
      invariant RightFrom(t, work[..], g, k, act, 0)
      invariant forall j | m <= j < work.Length :: work[j] == old(work[j])
      invariant SameSizes(old(work[..]), work[..])
      decreases k
    {
      FourDivides(k);
      FftLevel(t, work, mtrunc, dist, k, needed, mipLevel, g, act);
      dist4 := dist;
      dist := dist / 4;
      k := k - 2;
    }
    OneLayerLeft(k);
    if dist4 == 2 {
      FftPairs(t, work, mtrunc, needed, mipLevel, g, act);
    } else {
      LevelZero(t, work[..], g, act, needed, mtrunc);
    }
  }

  lemma FourDivides(k: nat)
    requires Pow2(k) / 4 != 0
    ensures k >= 2 && Pow2(k) / 4 == Pow2(k - 2)
  {
    if k >= 2 {
      PowStep(k);
      PowStep(k - 1);
    } else {
      PowOne();
    }
  }

  lemma OneLayerLeft(k: nat)
    requires Pow2(k) / 4 == 0
    ensures Pow2(k) == 2 ==> k == 1
    ensures Pow2(k) != 2 ==> k == 0
  {
    if k >= 2 {
      PowFour(k);
    }
  }

  lemma PowFour(k: nat)
    requires k >= 2
    ensures Pow2(k) >= 4
  {
    PowStep(k);
    PowStep(k - 1);
  }

  lemma WholeRight(t: Leopard, w: seq<Shard>, g: seq<Shard>, n: nat,
                   act: (nat, nat) -> bool, needed: (nat, nat) -> bool, mtrunc: nat)
    requires mtrunc <= Pow2(n) <= |w| && Pow2(n) <= |t.skew| + 1 && Covers(act, needed, mtrunc)
    requires g == t.Fft(w[..Pow2(n)], n, 0)
    ensures RightFrom(t, w, g, n, act, 0)
  {
    hide Leopard.Fft, Covers, Pow2, At;
    forall p: nat | act(n, p) ensures BlockRight(t, w, g, n, At(p, n)) {
      ActParent(act, needed, mtrunc, n, p);
      AtNext(0, n);
      if p > 0 {
        AtMonotonic(1, p, n);
        assert false;
      }
    }
  }

  lemma LevelZero(t: Leopard, w: seq<Shard>, g: seq<Shard>,
                  act: (nat, nat) -> bool, needed: (nat, nat) -> bool, mtrunc: nat)
    requires RightFrom(t, w, g, 0, act, 0)
    ensures forall i | 0 <= i < |g| && i < |w| && act(0, i) :: w[i] == g[i]
  {
    hide Leopard.Fft, Covers;
    forall i | 0 <= i < |g| && i < |w| && act(0, i) ensures w[i] == g[i] {
      assert BlockRight(t, w, g, 0, At(i, 0));
      AtZero(i);
      PowZero();
      t.TransformBase(w[i..i + 1], i);
      assert w[i..i + 1][0] == g[i..i + 1][0];
    }
  }
}
