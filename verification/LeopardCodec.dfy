// Encode and Verify of the 8-bit Leopard codec, block by block over the shards.
module LeopardCodec {

  import opened Wrappers
  import opened BitXor
  import opened Shards
  import opened Transform
  import opened LeopardEncode
  import opened ParityLaws
  import ReedSolomon

  type Outcome<+T> = ReedSolomon.Outcome<T>

  // ---------- ceilPow2 ----------

  // Number of bits of x.
  function BitLength(x: nat): nat {
    if x == 0 then 0 else 1 + BitLength(x / 2)
  }

  // The least power of two that is at least n.
  lemma {:induction false} CeilPow2(n: nat)
    requires n >= 1
    ensures Pow2(BitLength(n - 1)) >= n
    ensures forall k: nat | Pow2(k) >= n :: k >= BitLength(n - 1)
    decreases n
  {
    var x := n - 1;
    if x > 0 {
      CeilPow2(x / 2 + 1);
      forall k: nat | Pow2(k) >= n ensures k >= BitLength(x) {
        if k > 0 {
          PowStep(k);
          assert Pow2(k - 1) >= x / 2 + 1;
        }
      }
    }
  }

  // ---------- Blocks ----------

  const WORK_SIZE: nat := 32768

  // A pooled buffer cut down to size, or a new one.
  function Resize(row: Shard, size: nat): (r: Shard)
    ensures |r| == size
  {
    if |row| >= size then row[..size] else Clear(size)
  }

  // The first done columns of the parity shards have been computed.
  ghost predicate Stored(shards: seq<Shard>, data: seq<Shard>, goal: seq<Shard>, size: nat, done: nat) {
    && |shards| == |data| + |goal| && done <= size && Uniform(shards, size)
    && shards[..|data|] == data
    && forall i: nat | |data| <= i < |shards| :: UpTo(shards[i], goal[i - |data|], done)
  }

  ghost predicate UpTo(row: Shard, goal: Shard, done: nat) {
    |row| == |goal| && done <= |row| && row[..done] == goal[..done]
  }

  lemma UpToStep(row: Shard, goal: Shard, piece: Shard, off: nat, end: nat)
    requires UpTo(row, goal, off) && off <= end <= |row| && piece == goal[off..end]
    ensures UpTo(row[..off] + piece + row[end..], goal, end)
  {
    var r := row[..off] + piece + row[end..];
    assert r[..end] == row[..off] + piece;
    assert goal[..end] == goal[..off] + goal[off..end];
  }

  lemma UpToAll(row: Shard, goal: Shard)
    requires UpTo(row, goal, |row|)
    ensures row == goal
  {
    assert row == row[..|row|] && goal == goal[..|row|];
  }

  // What Encode and Verify of either width answer before they compute anything.
  ghost function EncodeVerdict(shards: seq<Shard>, totalShards: nat): Outcome<()> {
    var shape := ReedSolomon.ShapeVerdict(shards, totalShards, false);
    if shape.Ok? && ReedSolomon.SizeOf(shards) % 64 != 0 then Err(ReedSolomon.InvalidShardSize) else shape
  }

  // When that is which error.
  lemma EncodeExactly(shards: seq<Shard>, total: nat)
    ensures var v := EncodeVerdict(shards, total);
            var held := ReedSolomon.Held(shards);
            var whole := |shards| == total && ReedSolomon.OneSize(shards) && forall i: nat | i < total :: i in held;
            && (v == Ok(()) <==> whole && forall i | i in held :: |shards[i]| % 64 == 0)
            && (v == Err(ReedSolomon.InvalidShardSize) <==> whole && exists i :: i in held && |shards[i]| % 64 != 0)
            && (v == Err(ReedSolomon.TooFewShards) <==> |shards| != total)
            && (v == Err(ReedSolomon.ShardNoData) <==> |shards| == total && held == {})
  {
    hide ReedSolomon.OneSize, ReedSolomon.Held, ReedSolomon.ShapeVerdict, ReedSolomon.SizeOf;
    ReedSolomon.ShapeExactly(shards, total);
    if ReedSolomon.OneSize(shards) {
      HeldSizes(shards);
    }
  }

  lemma HeldSizes(shards: seq<Shard>)
    requires ReedSolomon.OneSize(shards)
    ensures (ReedSolomon.SizeOf(shards) % 64 == 0
             <==> forall i | i in ReedSolomon.Held(shards) :: |shards[i]| % 64 == 0)
  {
    hide ReedSolomon.SizeOf;
    ReedSolomon.SizesMean(shards);
    ReedSolomon.SizeIsHeld(shards);
  }

  // bytes.Equal on the shards from position from on.
  method SameFrom(u: array<Shard>, v: array<Shard>, from: nat) returns (same: bool)
    requires from <= u.Length == v.Length
    ensures same <==> u[from..] == v[from..]
  {
    for i := from to u.Length
      invariant forall j | from <= j < i :: u[j] == v[j]
    {
      if u[i] != v[i] {
        assert u[from..][i - from] != v[from..][i - from];
        return false;
      }
    }
    return true;
  }

  class LeopardFF8 {
    const t: Leopard
    const dataShards: nat
    const parityShards: nat
    const n: nat
    const work: array<Shard>
    const scratch: array<Shard>

    // The pooled buffers may hold anything.
    ghost predicate Valid()
      reads this
    {
      && dataShards > 0 && parityShards > 0 && n == BitLength(parityShards - 1)
      && t.Linear() && Columnwise(t)
      && work != scratch && work.Length == scratch.Length == Pow2(n)
    }

    // Encoding stays inside the skew table; the constructor does not see to it.
    ghost predicate InTable() {
      Fits(Pow2(n), dataShards, Pow2(n), |t.skew| + 1)
    }

    constructor (t: Leopard, dataShards: nat, parityShards: nat)
      requires dataShards > 0 && parityShards > 0 && t.Linear() && Columnwise(t)
      ensures Valid() && fresh(work) && fresh(scratch)
      ensures this.t == t && this.dataShards == dataShards && this.parityShards == parityShards
    {
      this.t := t;
      this.dataShards := dataShards;
      this.parityShards := parityShards;
      n := BitLength(parityShards - 1);
      work := new Shard[Pow2(BitLength(parityShards - 1))](_ => []);
      scratch := new Shard[Pow2(BitLength(parityShards - 1))](_ => []);
    }

    ghost function Verdict(shards: seq<Shard>): Outcome<()> {
      EncodeVerdict(shards, dataShards + parityShards)
    }

    // The parity shards are the parity of the data shards.
    ghost predicate Matches(shards: seq<Shard>)
      requires Valid() && InTable() && |shards| == dataShards + parityShards
      reads this
    {
      CeilPow2(parityShards);
      shards[dataShards..] == Parity(t, shards[..dataShards], n, parityShards, ReedSolomon.SizeOf(shards))
    }

    method Encode(shards: array<Shard>) returns (r: Outcome<()>)
      requires Valid() && shards != work && shards != scratch && (Verdict(shards[..]).Ok? ==> InTable())
      modifies shards, work, scratch
      ensures r == old(Verdict(shards[..]))
      ensures r.Err? ==> shards[..] == old(shards[..])
      ensures r.Ok? ==> shards[..dataShards] == old(shards[..dataShards]) && Matches(shards[..])
      ensures r.Ok? ==> ReedSolomon.SizeOf(shards[..]) == old(ReedSolomon.SizeOf(shards[..]))
    {
      hide Columnwise, Leopard.Linear, Pow2, Fits, Parity;
      if shards.Length != dataShards + parityShards {
        return Err(ReedSolomon.TooFewShards);
      }
      var check := ReedSolomon.CheckShards(shards, false);
      if check.Err? {
        return Err(check.error);
      }
      var size := check.value;
      if size % 64 != 0 {
        return Err(ReedSolomon.InvalidShardSize);
      }
      EncodeColumns(shards, size);
      SameSize(shards[..], size);
      return Ok(());
    }

    // The loop over blocks of WORK_SIZE columns.
    method EncodeColumns(shards: array<Shard>, size: nat)
      requires Valid() && InTable() && shards != work && shards != scratch && shards.Length == dataShards + parityShards
      requires size > 0 && size % 64 == 0 && Uniform(shards[..], size)
      modifies shards, work, scratch
      ensures Uniform(shards[..], size) && parityShards <= Pow2(n)
      ensures shards[..dataShards] == old(shards[..dataShards])
      ensures shards[dataShards..] == Parity(t, old(shards[..dataShards]), n, parityShards, size)
    {
      hide Columnwise, Leopard.Linear, Leopard.KeepsLength, Pow2, Fits, Parity, Stored, Cut, WORK_SIZE;
      CeilPow2(parityShards);
      LinearLength(t);
      ghost var data := shards[..dataShards];
      ParityCut(t, data, n, parityShards, 0, 0, size);
      ghost var goal := Parity(t, data, n, parityShards, size);
      NothingYet(shards[..], data, goal, size);
      var off := 0;
      while off < size
        invariant off % 64 == 0
        invariant Stored(shards[..], data, goal, size, Min(off, size))
        decreases size - off
      {
        var end := Min(off + WORK_SIZE, size);
        BlockEnd(off, size);
        EncodeStretch(shards, off, end, size, data, goal);
        off := off + WORK_SIZE;
      }
      AllOfIt(shards[..], data, goal, size);
    }

    // One block. In the rows of work that stand for the parity shards the old parity is left,
    // and what is computed there is theirs.
    method EncodeStretch(shards: array<Shard>, off: nat, end: nat, ghost size: nat, ghost data: seq<Shard>,
                         ghost goal: seq<Shard>)
      requires Valid() && InTable() && shards != work && shards != scratch && shards.Length == dataShards + parityShards
      requires off < end <= size && off % 64 == 0 && end % 64 == 0 && |data| == dataShards && parityShards <= Pow2(n)
      requires Uniform(data, size) && goal == Parity(t, data, n, parityShards, size)
      requires Stored(shards[..], data, goal, size, off)
      modifies shards, work, scratch
      ensures Stored(shards[..], data, goal, size, end)
    {
      hide Columnwise, Leopard.Linear, Pow2, Fits, Parity, Stored, Cut;
      ghost var start := shards[..];
      StoredSizes(start, data, goal, size, off);
      LinearLength(t);
      ParityCut(t, data, n, parityShards, off, end, size);
      UniformHas(goal, size);
      var sh := Cut(shards[..dataShards], off, end);
      TakeBuffers(shards, off, end);
      CutUniform(data, off, end, size);
      EncodeBlock(t, sh, work, scratch, parityShards, work.Length, n, end - off);
      PutParity(shards, work[..parityShards], off, end, goal);
      Restored(start, shards[..], data, goal, size, off, end);
    }

    method TakeBuffers(shards: array<Shard>, off: nat, end: nat)
      requires Valid() && shards != work && shards != scratch && shards.Length == dataShards + parityShards
      requires parityShards <= Pow2(n) && off <= end && forall i | 0 <= i < shards.Length :: end <= |shards[i]|
      modifies work, scratch
      ensures Uniform(work[..], end - off) && Uniform(scratch[..], end - off)
    {
      hide Pow2, Fits, Columnwise, Leopard.Linear;
      for i := 0 to work.Length
        invariant forall j | 0 <= j < i :: |work[j]| == |scratch[j]| == end - off
      {
        work[i] := if i < parityShards then shards[dataShards + i][off..end] else Resize(work[i], end - off);
        scratch[i] := Resize(scratch[i], end - off);
      }
    }

    method PutParity(shards: array<Shard>, pieces: seq<Shard>, off: nat, end: nat, ghost goal: seq<Shard>)
      requires shards.Length == dataShards + parityShards && |pieces| == |goal| == parityShards && off <= end
      requires forall i | 0 <= i < parityShards :: UpTo(shards[dataShards + i], goal[i], off) && end <= |goal[i]|
      requires pieces == Cut(goal, off, end)
      modifies shards
      ensures forall i | 0 <= i < dataShards :: shards[i] == old(shards[i])
      ensures forall i | 0 <= i < parityShards :: UpTo(shards[dataShards + i], goal[i], end)
    {
      hide UpTo;
      for i := 0 to parityShards
        invariant forall j | 0 <= j < dataShards + parityShards && (j < dataShards || j >= dataShards + i) ::
          shards[j] == old(shards[j])
        invariant forall j | 0 <= j < i :: UpTo(shards[dataShards + j], goal[j], end)
      {
        assert UpTo(shards[dataShards + i], goal[i], off);
        UpToLength(shards[dataShards + i], goal[i], off);
        UpToStep(shards[dataShards + i], goal[i], pieces[i], off, end);
        shards[dataShards + i] := shards[dataShards + i][..off] + pieces[i] + shards[dataShards + i][end..];
      }
    }

    // Verify encodes the data again, beside the shards, and compares.
    method Verify(shards: array<Shard>) returns (r: Outcome<bool>)
      requires Valid() && shards != work && shards != scratch && (Verdict(shards[..]).Ok? ==> InTable())
      modifies work, scratch
      ensures r.Ok? <==> Verdict(shards[..]).Ok?
      ensures r.Err? ==> r.error == Verdict(shards[..]).error
      ensures r.Ok? ==> (r.value <==> Matches(shards[..]))
      ensures shards[..] == old(shards[..])
    {
      hide Columnwise, Leopard.Linear, Pow2, Fits, Parity;
      if shards.Length != dataShards + parityShards {
        return Err(ReedSolomon.TooFewShards);
      }
      var check := ReedSolomon.CheckShards(shards, false);
      if check.Err? {
        return Err(check.error);
      }
      var size := |shards[0]|;
      var outputs: array<Shard> := new Shard[shards.Length](i reads shards requires 0 <= i < shards.Length =>
        if i < dataShards then shards[i] else Clear(size));
      forall i | 0 <= i < shards.Length ensures |shards[..][i]| == size && |outputs[..][i]| == size {
        assert |shards[..][0]| == |shards[..][i]| == ReedSolomon.SizeOf(shards[..]);
        assert outputs[i] == if i < dataShards then shards[i] else Clear(size);
      }
      SameSize(shards[..], size);
      SameSize(outputs[..], size);
      assert outputs[..dataShards] == shards[..dataShards];
      var re := Encode(outputs);
      if re.Err? {
        return Err(re.error);
      }
      var same := SameFrom(outputs, shards, dataShards);
      return Ok(same);
    }
  }

  // newFF8
  method NewFF8(t: Leopard, dataShards: int, parityShards: int) returns (r: Outcome<LeopardFF8>)
    requires t.Linear() && Columnwise(t)
    ensures dataShards <= 0 || parityShards <= 0 ==> r == Err(ReedSolomon.InvShardNum)
    ensures dataShards > 0 && parityShards > 0 && dataShards + parityShards > 65536 ==>
      r == Err(ReedSolomon.MaxShardNum)
    ensures dataShards > 0 && parityShards > 0 && dataShards + parityShards <= 65536 ==>
      && r.Ok? && fresh(r.value) && r.value.Valid() && fresh(r.value.work) && fresh(r.value.scratch)
      && r.value.t == t && r.value.dataShards == dataShards && r.value.parityShards == parityShards
  {
    hide Leopard.Linear, Columnwise;
    if dataShards <= 0 || parityShards <= 0 {
      return Err(ReedSolomon.InvShardNum);
    }
    if dataShards + parityShards > 65536 {
      return Err(ReedSolomon.MaxShardNum);
    }
    var c := new LeopardFF8(t, dataShards, parityShards);
    return Ok(c);
  }

  // Blocks end at multiples of 64 bytes.
  lemma BlockEnd(off: nat, size: nat)
    requires off % 64 == 0 && size % 64 == 0 && off < size
    ensures off < Min(off + WORK_SIZE, size) <= size
    ensures Min(off + WORK_SIZE, size) % 64 == 0 && (off + WORK_SIZE) % 64 == 0
    ensures Min(off, size) == off
  {
  }

  lemma LinearLength(t: Leopard)
    requires t.Linear()
    ensures t.KeepsLength()
  {
  }

  lemma UpToLength(row: Shard, goal: Shard, done: nat)
    requires UpTo(row, goal, done)
    ensures |row| == |goal|
  {
  }

  lemma NothingYet(shards: seq<Shard>, data: seq<Shard>, goal: seq<Shard>, size: nat)
    requires |shards| == |data| + |goal| && shards[..|data|] == data && Uniform(shards, size) && Uniform(goal, size)
    ensures Stored(shards, data, goal, size, 0)
  {
  }

  lemma StoredSizes(shards: seq<Shard>, data: seq<Shard>, goal: seq<Shard>, size: nat, done: nat)
    requires Stored(shards, data, goal, size, done)
    ensures |shards| == |data| + |goal| && shards[..|data|] == data
    ensures forall i | 0 <= i < |shards| :: |shards[i]| == size
    ensures forall i | 0 <= i < |goal| :: UpTo(shards[|data| + i], goal[i], done)
  {
    hide UpTo;
    forall i | 0 <= i < |goal| ensures UpTo(shards[|data| + i], goal[i], done) {
      var j: nat := |data| + i;
      assert UpTo(shards[j], goal[j - |data|], done);
    }
  }

  lemma Restored(before: seq<Shard>, after: seq<Shard>, data: seq<Shard>, goal: seq<Shard>, size: nat, off: nat,
                 end: nat)
    requires Stored(before, data, goal, size, off) && |after| == |before| && end <= size && Uniform(goal, size)
    requires forall i | 0 <= i < |data| :: after[i] == before[i]
    requires forall i | 0 <= i < |goal| :: UpTo(after[|data| + i], goal[i], end)
    ensures Stored(after, data, goal, size, end)
  {
    hide UpTo;
    assert after[..|data|] == before[..|data|];
    forall i: nat | |data| <= i < |after| ensures |after[i]| == size && UpTo(after[i], goal[i - |data|], end) {
      assert UpTo(after[|data| + (i - |data|)], goal[i - |data|], end);
      UpToLength(after[i], goal[i - |data|], end);
    }
  }

  lemma AllOfIt(shards: seq<Shard>, data: seq<Shard>, goal: seq<Shard>, size: nat)
    requires Stored(shards, data, goal, size, size)
    ensures Uniform(shards, size) && shards[..|data|] == data && shards[|data|..] == goal
  {
    hide UpTo;
    forall i: nat | |data| <= i < |shards| ensures shards[i] == goal[i - |data|] {
      UpToAll(shards[i], goal[i - |data|]);
    }
  }

  lemma SameSize(shards: seq<Shard>, size: nat)
    requires size > 0 && shards != [] && Uniform(shards, size)
    ensures ReedSolomon.SizeOf(shards) == size
  {
    assert |shards[0]| == size;
  }
}
