// Which entries of errLocs reconstruct of leopard8.go reads and writes: its loops with the indices
// alone. They say exactly for which counts of shards it stays inside the array of 256.
module LocatorReads {

  import opened Modular
  import opened Shards
  import opened WalshLoops

  // The entries below n and no others.
  ghost predicate Exactly(entries: set<nat>, n: nat) {
    forall e: nat :: e in entries <==> e < n
  }

  ghost predicate Inside(entries: set<nat>) {
    forall e | e in entries :: e < 256
  }

  // One block of fwht8, with 16-bit indices.
  method BlockReads(r: nat, step: nat) returns (entries: set<nat>)
    requires 0 < step <= 64
    ensures r + 4 * step <= 65536 ==> forall e: nat :: e in entries <==> r <= e < r + 4 * step
  {
    hide Index16;
    entries := {};
    var dist := Index16(step);
    var off := Index16(r);
    IndexFits(step);
    if r < 65536 {
      IndexFits(r);
    }
    for i := 0 to dist
      invariant dist == step && (r + 4 * step <= 65536 ==> off == r + i)
      invariant r + 4 * step <= 65536 ==>
        forall e: nat :: e in entries <==>
          (r <= e < r + i || r + step <= e < r + step + i || r + 2 * step <= e < r + 2 * step + i
           || r + 3 * step <= e < r + 3 * step + i)
    {
      if r + 4 * step <= 65536 {
        IndexFits(off + dist);
        IndexFits(off + dist * 2);
        IndexFits(off + dist * 3);
        if off + 1 < 65536 {
          IndexFits(off + 1);
        }
      }
      entries := entries + {off, Index16(off + dist), Index16(off + dist * 2), Index16(off + dist * 3)};
      off := Index16(off + 1);
    }
  }

  predicate Layer(dist: nat) {
    dist == 1 || dist == 4 || dist == 16 || dist == 64
  }

  // The least multiple of d that is not below x.
  function RoundUp(x: nat, d: nat): nat
    requires d > 0
  {
    (x + d - 1) / d * d
  }

  lemma RoundUpIs(x: nat, d: nat, r: nat)
    requires d > 0 && r % d == 0 && x <= r < x + d
    ensures RoundUp(x, d) == r
  {
    var q := r / d;
    assert r == q * d;
    ModUnique(x + d - 1, q, x + d - 1 - r, d);
  }

  lemma LayerFits(r: nat, dist: nat)
    requires Layer(dist) && r % (4 * dist) == 0
    ensures r < 65536 ==> r + 4 * dist <= 65536
    ensures (r + 4 * dist) % (4 * dist) == 0
  {
  }

  // One pair of layers of fwht8.
  method LayerReads(mtrunc: nat, dist: nat) returns (entries: set<nat>)
    requires Layer(dist)
    ensures mtrunc <= 65536 ==> Exactly(entries, RoundUp(mtrunc, 4 * dist))
    ensures dist == 1 && mtrunc > 256 ==> 256 in entries
  {
    entries := {};
    var r := 0;
    while r < mtrunc
      invariant r % (4 * dist) == 0 && r < mtrunc + 4 * dist
      invariant r <= 65536 ==> Exactly(entries, r)
      invariant dist == 1 && r > 256 ==> 256 in entries
    {
      LayerFits(r, dist);
      var block := BlockReads(r, dist);
      entries := entries + block;
      r := r + 4 * dist;
    }
    RoundUpIs(mtrunc, 4 * dist, r);
    LayerEnds(mtrunc, r, dist);
  }

  lemma LayerEnds(mtrunc: nat, r: nat, dist: nat)
    requires Layer(dist) && r % (4 * dist) == 0 && mtrunc <= r < mtrunc + 4 * dist
    ensures mtrunc <= 65536 ==> r <= 65536
  {
  }

  lemma RoundUpLeast(x: nat, d: nat)
    requires d > 0
    ensures RoundUp(x, d) % d == 0 && x <= RoundUp(x, d) < x + d
  {
    var q, r := (x + d - 1) / d, (x + d - 1) % d;
    assert x + d - 1 == q * d + r;
    ModUnique(q * d, q, 0, d);
  }

  // No multiple of d that is not below x is less.
  lemma NoneBetween(x: nat, d: nat, s: nat)
    requires d > 0 && s % d == 0 && x <= s
    ensures RoundUp(x, d) <= s
  {
    hide RoundUp;
    RoundUpLeast(x, d);
    var r := RoundUp(x, d);
    var p, q := r / d, s / d;
    assert r == p * d && s == q * d;
    if q < p {
      MulMonotone(q + 1, p, d);
    }
  }

  // Coarser layers read what finer ones read.
  lemma Coarser(x: nat, dist: nat)
    requires Layer(dist) || dist == 256
    ensures x <= RoundUp(x, dist) <= RoundUp(x, 4 * dist)
  {
    hide RoundUp;
    RoundUpLeast(x, dist);
    RoundUpLeast(x, 4 * dist);
    FinerMultiple(RoundUp(x, 4 * dist), dist);
    NoneBetween(x, dist, RoundUp(x, 4 * dist));
  }

  lemma FinerMultiple(s: nat, d: nat)
    requires d > 0 && s % (4 * d) == 0
    ensures s % d == 0
  {
    var q := s / (4 * d);
    assert s == q * (4 * d) == (4 * q) * d;
    ModUnique(s, 4 * q, 0, d);
  }

  // fwht8 reads the entries below the next multiple of 256, and entry 256 if there are more than
  // 65536 of them too.
  method FwhtReads(mtrunc: nat) returns (entries: set<nat>)
    ensures mtrunc <= 65536 ==> Exactly(entries, RoundUp(mtrunc, 256))
    ensures mtrunc > 256 ==> 256 in entries
  {
    hide RoundUp;
    entries := {};
    var dist, dist4 := 1, 4;
    while dist4 <= 256
      invariant dist4 == 4 * dist && (Layer(dist) || dist == 256)
      invariant mtrunc <= 65536 ==> Exactly(entries, if dist == 1 then 0 else RoundUp(mtrunc, dist))
      invariant dist > 1 && mtrunc > 256 ==> 256 in entries
      decreases 1024 - dist4
    {
      var layer := LayerReads(mtrunc, dist);
      Coarser(mtrunc, dist);
      entries := entries + layer;
      dist := dist4;
      dist4 := dist4 * 4;
    }
  }

  // The positions that are marked as erased, and those whose shards are scaled and restored.
  method ShardReads(shards: seq<Shard>, dataShards: nat, parityShards: nat, m: nat, recoverAll: bool)
    returns (entries: set<nat>)
    requires |shards| == dataShards + parityShards && parityShards <= m
    ensures forall e | e in entries :: e < m + dataShards
  {
    entries := {};
    // Filling in the error locations, and scaling what is there.
    for i := 0 to parityShards
      invariant forall e | e in entries :: e < m + dataShards
    {
      entries := entries + {i};
    }
    for i := parityShards to m
      invariant forall e | e in entries :: e < m + dataShards
    {
      entries := entries + {i};
    }
    for i := 0 to dataShards
      invariant forall e | e in entries :: e < m + dataShards
    {
      entries := entries + {i + m};
    }
    // Restoring.
    var end := if recoverAll then |shards| else dataShards;
    for i := 0 to end
      invariant forall e | e in entries :: e < m + dataShards
    {
      if |shards[i]| == 0 {
        entries := entries + {if i >= dataShards then i - dataShards else i + m};
      }
    }
  }

  // reconstruct, as far as it computes: all 256 entries, and one behind them exactly when
  // m + dataShards is more than 256.
  method ReconstructReads(shards: seq<Shard>, dataShards: nat, parityShards: nat, m: nat, recoverAll: bool)
    returns (entries: set<nat>)
    requires |shards| == dataShards + parityShards && parityShards <= m
    ensures m + dataShards <= 256 ==> Exactly(entries, 256)
    ensures m + dataShards > 256 ==> 256 in entries
    ensures Inside(entries) <==> m + dataShards <= 256
  {
    entries := ShardReads(shards, dataShards, parityShards, m, recoverAll);
    var locator := FwhtReads(m + dataShards);
    entries := entries + locator;
    for i := 0 to 256
      invariant m + dataShards <= 256 ==> Inside(entries)
      invariant m + dataShards > 256 ==> 256 in entries
    {
      entries := entries + {i};
    }
    var product := FwhtReads(256);
    entries := entries + product;
  }
}
