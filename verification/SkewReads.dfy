// Which entries of the skew table the 8-bit encoder reads: its loops again, with the indices
// alone. They say exactly for which counts of shards it stays inside the table.
module SkewReads {

  import opened BitXor
  import opened Modular
  import opened ForwardLoops
  import opened InverseLoops
  import opened LeopardEncode

  // ---------- One transform ----------

  // The entry for the top layer of a transform of m shards whose entries start at off.
  function TopEntry(off: nat, m: nat): int {
    off + m / 2 - 1
  }

  // ifftDITEncoder8 for the slice of the table that starts at entry off - 1.
  method InverseReads(mtrunc: nat, m: nat, off: nat, ghost n: nat) returns (entries: set<nat>)
    requires m == Pow2(n) && mtrunc <= m && off > 0
    ensures m == 1 ==> entries == {}
    ensures forall e | e in entries :: off <= e < off + m - 1
    ensures m > 1 && mtrunc > 0 ==> TopEntry(off, m) in entries
  {
    hide Pow2;
    entries := {};
    var dist, dist4 := 1, 4;
    ghost var k: nat := 0;
    PowZero();
    PowPositive(n);
    PowInjective(0, n);
    while dist4 <= m
      invariant k <= n && dist == Pow2(k) && dist4 == 4 * dist
      invariant forall e | e in entries :: off <= e < off + m - 1
      invariant m == 1 ==> entries == {}
      invariant mtrunc > 0 && dist == m && m > 1 ==> TopEntry(off, m) in entries
      decreases n - k
    {
      PowStep(k + 1);
      PowStep(k + 2);
      PowInjective(k + 2, n);
      var level := LevelReads(mtrunc, m, off, dist, k + 2, n);
      entries := entries + level;
      dist := dist4;
      dist4 := dist4 * 4;
      k := k + 2;
    }
    LayersLeft(k, n);
    if dist < m {
      PowStep(n);
      entries := entries + {off + dist - 1};
    }
  }

  // The blocks of 4 * dist shards.
  method LevelReads(mtrunc: nat, m: nat, off: nat, dist: nat, ghost k: nat, ghost n: nat) returns (entries: set<nat>)
    requires 2 <= k <= n && dist == Pow2(k - 2) && m == Pow2(n) && Pow2(k) == 4 * dist && mtrunc <= m && off > 0
    ensures forall e | e in entries :: off <= e < off + m - 1
    ensures mtrunc > 0 && 4 * dist == m ==> TopEntry(off, m) in entries
  {
    hide Pow2, At;
    entries := {};
    var r := 0;
    ghost var q := 0;
    AtNext(0, k);
    PowPositive(k - 2);
    while r < mtrunc
      invariant r == At(q, k)
      invariant forall e | e in entries :: off <= e < off + m - 1
      invariant r > 0 && 4 * dist == m ==> TopEntry(off, m) in entries
      decreases mtrunc - r
    {
      AtFits(q, k, n);
      AtNext(q, k);
      var iend := r + dist;
      entries := entries + {off + iend - 1, off + iend + dist - 1, off + iend + dist * 2 - 1};
      r := r + 4 * dist;
      q := q + 1;
    }
  }

  // fftDIT8 for the whole table.
  method ForwardReads(mtrunc: nat, m: nat, ghost n: nat) returns (entries: set<nat>)
    requires m == Pow2(n) && mtrunc <= m
    ensures forall e | e in entries :: e + 1 < m
  {
    hide Pow2, At;
    entries := {};
    var dist4 := m;
    var dist := m / 4;
    ghost var k: nat := n;
    while dist != 0
      invariant k <= n && dist4 == Pow2(k) && dist == dist4 / 4
      invariant forall e | e in entries :: e + 1 < m
      decreases k
    {
      FourDivides(k);
      PowStep(k);
      PowStep(k - 1);
      var r := 0;
      ghost var q := 0;
      AtNext(0, k);
      while r < mtrunc
        invariant r == At(q, k)
        invariant forall e | e in entries :: e + 1 < m
        decreases mtrunc - r
      {
        AtFits(q, k, n);
        AtNext(q, k);
        var iend := r + dist;
        entries := entries + {iend - 1, iend + dist - 1, iend + dist * 2 - 1};
        r := r + dist4;
        q := q + 1;
      }
      dist4 := dist;
      dist := dist / 4;
      k := k - 2;
    }
    if dist4 == 2 {
      OneLayerLeft(k);
      var r := 0;
      ghost var q := 0;
      AtNext(0, 1);
      while r < mtrunc
        invariant r == At(q, 1)
        invariant forall e | e in entries :: e + 1 < m
        decreases mtrunc - r
      {
        AtFits(q, 1, n);
        AtNext(q, 1);
        entries := entries + {r};
        r := r + 2;
        q := q + 1;
      }
    }
  }

  // ---------- encode ----------

  // Every slice of a table of order - 1 entries can be taken, and every entry is there.
  ghost predicate InsideTable(starts: set<nat>, entries: set<nat>, order: nat) {
    (forall s | s in starts :: s < order) && (forall e | e in entries :: e + 1 < order)
  }

  // What is read up to the chunk whose entries start at off.
  ghost predicate ReadUpTo(starts: set<nat>, entries: set<nat>, m: nat, off: nat) {
    && (forall s | s in starts :: s < off) && off > 0 && off - 1 in starts
    && (forall e | e in entries :: e + 1 < off + m)
    && (m == 1 ==> entries == {}) && (m > 1 ==> TopEntry(off, m) in entries)
  }

  lemma FirstRead(entries: set<nat>, m: nat)
    requires m > 0 && (forall e | e in entries :: e + 1 < m + m)
    requires (m == 1 ==> entries == {}) && (m > 1 ==> TopEntry(m, m) in entries)
    ensures ReadUpTo({m - 1}, entries, m, m)
  {
  }

  lemma NextRead(starts: set<nat>, entries: set<nat>, chunk: set<nat>, m: nat, off: nat)
    requires m > 0 && ReadUpTo(starts, entries, m, off) && (forall e | e in chunk :: e + 1 < off + m + m)
    requires (m == 1 ==> chunk == {}) && (m > 1 ==> TopEntry(off + m, m) in chunk)
    ensures ReadUpTo(starts + {off + m - 1}, entries + chunk, m, off + m)
  {
  }

  lemma ForwardRead(starts: set<nat>, entries: set<nat>, forward: set<nat>, m: nat, off: nat)
    requires m > 0 && ReadUpTo(starts, entries, m, off) && forall e | e in forward :: e + 1 < m
    ensures ReadUpTo(starts, entries + forward, m, off)
  {
    if m == 1 {
      assert forward == {};
    }
  }

  // The first data shard of chunk q.
  function ChunkStart(q: nat, m: nat): nat {
    q * m
  }

  lemma ChunkNext(q: nat, m: nat)
    ensures ChunkStart(q + 1, m) == ChunkStart(q, m) + m && ChunkStart(0, m) == 0
  {
  }

  // What is left of x in chunks of m.
  function Rest(x: nat, m: nat): nat
    requires m > 0
  {
    x % m
  }

  lemma RestStep(x: nat, m: nat)
    requires 0 < m <= x
    ensures Rest(x - m, m) == Rest(x, m)
  {
    ModStep(x, m);
  }

  lemma RestSmall(x: nat, m: nat)
    requires x < m
    ensures Rest(x, m) == x
  {
    ModSmall(x, m);
  }

  // Multiples of m that differ, differ by m at least.
  lemma MultiplesApart(a: int, b: int, m: nat)
    ensures a < b ==> a * m + m <= b * m
  {
    if a < b {
      MulMonotone(a + 1, b, m);
    }
  }

  // The chunk at off = (q + 1) * m is the last one.
  lemma InsideExactly(starts: set<nat>, entries: set<nat>, len: nat, m: nat, q: nat, n: nat, w: nat)
    requires m == Pow2(n) && ChunkStart(q, m) < len <= ChunkStart(q, m) + m
    requires ReadUpTo(starts, entries, m, ChunkStart(q, m) + m)
    ensures InsideTable(starts, entries, Pow2(w)) <==> (if m == 1 then len else m + len) <= Pow2(w)
  {
    hide Pow2;
    var order := Pow2(w);
    PowPositive(n);
    PowPositive(w);
    if m == 1 {
      assert q + 1 - 1 in starts;
    } else if n <= w {
      var u := PowMultiple(n, w);
      MultiplesApart(q + 1, u, m);
      MultiplesApart(u, q + 2, m);
      assert (q + 1) * m == q * m + m && (q + 2) * m == q * m + 2 * m;
      assert TopEntry(q * m + m, m) in entries;
    } else {
      PowMonotonic(w + 1, n);
      PowStep(w + 1);
      assert q * m >= 0;
      assert TopEntry(q * m + m, m) in entries;
    }
  }

  // The slices of the table that encode takes, by their starts, and the entries it reads. It
  // stays inside the table exactly when m + dataShards <= order, or dataShards <= order when
  // m is 1.
  method EncodeReads(dataShards: nat, parityShards: nat, m: nat, ghost n: nat, ghost w: nat)
    returns (starts: set<nat>, entries: set<nat>)
    requires m == Pow2(n) && 0 < parityShards <= m && dataShards > 0
    ensures InsideTable(starts, entries, Pow2(w)) <==> Fits(m, dataShards, m, Pow2(w))
    ensures InsideTable(starts, entries, Pow2(w)) <==> (if m == 1 then dataShards else m + dataShards) <= Pow2(w)
    ensures exists q: nat ::
      ChunkStart(q, m) < dataShards <= ChunkStart(q, m) + m && ReadUpTo(starts, entries, m, ChunkStart(q, m) + m)
  {
    hide Pow2, ReadUpTo, Fits, InsideTable, TopEntry, ChunkStart, Rest;
    PowPositive(n);
    ChunkNext(0, m);
    starts := {m - 1};
    entries := InverseReads(Min(m, dataShards), m, m, n);
    ghost var q: nat := 0;
    FirstRead(entries, m);
    var lastCount := Rest(dataShards, m);
    if m < dataShards {
      RestStep(dataShards, m);
      var i := m;
      while i + m <= dataShards
        invariant i == ChunkStart(q, m) + m && i <= dataShards && ReadUpTo(starts, entries, m, i)
        invariant Rest(dataShards - i, m) == lastCount
        decreases dataShards - i
      {
        RestStep(dataShards - i, m);
        var chunk := InverseReads(m, m, i + m, n);
        NextRead(starts, entries, chunk, m, i);
        starts := starts + {i + m - 1};
        entries := entries + chunk;
        i := i + m;
        ChunkNext(q, m);
        q := q + 1;
      }
      RestSmall(dataShards - i, m);
      if lastCount != 0 {
        var chunk := InverseReads(lastCount, m, i + m, n);
        NextRead(starts, entries, chunk, m, i);
        starts := starts + {i + m - 1};
        entries := entries + chunk;
        ChunkNext(q, m);
        q := q + 1;
      }
    }
    var forward := ForwardReads(parityShards, m, n);
    ForwardRead(starts, entries, forward, m, ChunkStart(q, m) + m);
    entries := entries + forward;
    InsideExactly(starts, entries, dataShards, m, q, n, w);
    FitsExactly(n, w, dataShards);
    OnlyOne(n);
  }

  lemma OnlyOne(n: nat)
    ensures Pow2(n) == 1 <==> n == 0
  {
    if n > 0 {
      PowStep(n);
    }
  }

  // The top layer of chunk q reads behind a table of 2^w - 1 entries, for m = 2^n.
  ghost predicate Leaves(q: nat, n: nat, w: nat) {
    TopEntry(Pow2(n) + ChunkStart(q, Pow2(n)), Pow2(n)) + 1 >= Pow2(w)
  }

  // More shards than that, and only then, make the top layer of some chunk read behind the
  // end of the table.
  lemma TopEntryLeaves(n: nat, w: nat, len: nat)
    requires n >= 1
    ensures Pow2(n) + len > Pow2(w) && len > 0 <==> exists q: nat :: ChunkStart(q, Pow2(n)) < len && Leaves(q, n, w)
  {
    hide Pow2, ChunkStart, TopEntry, Leaves;
    var m, order := Pow2(n), Pow2(w);
    PowPositive(n);
    if q: nat :| ChunkStart(q, m) < len && Leaves(q, n, w) {
      ChunkLeaves(n, w, q);
    }
    if m + len > order && len > 0 {
      var q := ChunkOf(len - 1, m);
      ChunkLeaves(n, w, q);
    }
  }

  lemma ChunkOf(i: nat, m: nat) returns (q: nat)
    requires m > 0
    ensures ChunkStart(q, m) <= i < ChunkStart(q, m) + m
  {
    q := i / m;
    assert i == q * m + i % m;
  }

  lemma ChunkLeaves(n: nat, w: nat, q: nat)
    requires n >= 1
    ensures Leaves(q, n, w) <==> Pow2(n) + ChunkStart(q, Pow2(n)) + Pow2(n) > Pow2(w)
    ensures Pow2(n) + ChunkStart(q, Pow2(n)) + Pow2(n) > Pow2(w) ==> Pow2(n) + ChunkStart(q, Pow2(n)) >= Pow2(w)
  {
    hide Pow2;
    var m := Pow2(n);
    PowStep(n);
    PowPositive(n - 1);
    if n <= w {
      var u := PowMultiple(n, w);
      MultiplesApart(q + 1, u, m);
      MultiplesApart(u, q + 2, m);
      assert (q + 1) * m == q * m + m && (q + 2) * m == q * m + 2 * m;
    } else {
      PowMonotonic(w + 1, n);
      PowStep(w + 1);
    }
  }

  // 65 parity shards (m = 128) for 191 data shards are 256 shards in all, which newFF8
  // accepts. The second chunk reads entry 319 of a table of 255.
  lemma ReadsPastTheEnd()
    ensures Pow2(7) == 128 && Pow2(8) == 256 && 64 < 65 <= 128 && 65 + 191 == 256
    ensures ChunkStart(1, 128) < 191 && Leaves(1, 7, 8) && TopEntry(128 + ChunkStart(1, 128), 128) == 319
  {
    assert Pow2(7) == 128 && Pow2(8) == 256;
  }
}
