// reconstruct of the 8-bit Leopard codec, without its cache.
module LeopardDecoder {

  import opened Wrappers
  import opened BitXor
  import opened Modular
  import opened LeopardField
  import opened LeopardTables
  import opened Shards
  import opened Transform
  import opened InverseLoops
  import opened PrunedLoops
  import opened FormalDerivative
  import opened ParityLaws
  import opened Walsh
  import opened WalshLoops
  import opened ErrorLocator
  import opened ErrorBitfields
  import opened RecoverySpec
  import opened Elements8
  import opened ErasureRecovery
  import LogTables
  import SkewTable
  import Words
  import LeopardCodec

  type Outcome<+T> = ReedSolomon.Outcome<T>

  // ---------- Marking the erasures ----------

  // The bits set so far are those of the erased positions below upto.
  ghost predicate MarkedUpTo(marked: set<nat>, e: seq<nat>, upto: nat, from: nat) {
    forall j: nat :: j in marked <==> j < upto && j < |e| && e[j] == 1 && j >= from
  }

  ghost predicate FilledUpTo(w: seq<nat>, e: seq<nat>, upto: nat) {
    |w| == |e| && forall j | 0 <= j < |e| :: w[j] == if j < upto then e[j] else 0
  }

  // One position, erased or not.
  method Mark(errLocs: array<nat>, bits: ErrorBitfield8, pos: nat, erased: bool, setBit: bool, ghost e: seq<nat>,
              ghost from: nat)
    requires pos < 256 == |e| && errLocs.Length == 256 && e[pos] == (if erased then 1 else 0)
    requires (setBit <==> pos >= from)
    requires bits.Raw() && MarkedUpTo(bits.marked, e, pos, from) && FilledUpTo(errLocs[..], e, pos)
    modifies errLocs, bits
    ensures bits.Raw() && MarkedUpTo(bits.marked, e, pos + 1, from) && FilledUpTo(errLocs[..], e, pos + 1)
  {
    hide Unmerged;
    if erased {
      errLocs[pos] := 1;
      if setBit {
        bits.Set(pos);
      }
    }
  }

  lemma AllMarked(marked: set<nat>, w: seq<nat>, shards: seq<Shard>, dataShards: nat, m: nat, recoverAll: bool)
    requires dataShards <= |shards| <= m + dataShards <= 256
    requires MarkedUpTo(marked, Erasures(shards, dataShards, m), m + dataShards, if recoverAll then 0 else m)
    requires FilledUpTo(w, Erasures(shards, dataShards, m), m + dataShards)
    ensures marked == Marks(shards, dataShards, m, recoverAll) && w == Erasures(shards, dataShards, m)
  {
    var e := Erasures(shards, dataShards, m);
    hide Erasures;
    forall j | m + dataShards <= j < 256 ensures e[j] == 0 {
      ErasureAt(shards, dataShards, m, j);
    }
  }

  method FillErrors(shards: seq<Shard>, dataShards: nat, parityShards: nat, m: nat, recoverAll: bool)
    returns (errLocs: array<nat>, bits: ErrorBitfield8)
    requires |shards| == dataShards + parityShards && parityShards <= m && m + dataShards <= 256
    ensures fresh(errLocs) && fresh(bits) && errLocs[..] == Erasures(shards, dataShards, m)
    ensures bits.Raw() && bits.marked == Marks(shards, dataShards, m, recoverAll)
  {
    hide Unmerged, Erasures, MarkedUpTo, FilledUpTo;
    errLocs := new nat[256](_ => 0);
    bits := new ErrorBitfield8();
    ghost var e := Erasures(shards, dataShards, m);
    ghost var from := if recoverAll then 0 else m;
    NothingMarked(errLocs[..], e, from);
    for i := 0 to parityShards
      invariant fresh(errLocs) && fresh(bits) && errLocs.Length == 256
      invariant bits.Raw() && MarkedUpTo(bits.marked, e, i, from) && FilledUpTo(errLocs[..], e, i)
    {
      ErasureAt(shards, dataShards, m, i);
      Mark(errLocs, bits, i, |shards[i + dataShards]| == 0, recoverAll, e, from);
    }
    for i := parityShards to m
      invariant fresh(errLocs) && fresh(bits) && errLocs.Length == 256
      invariant bits.Raw() && MarkedUpTo(bits.marked, e, i, from) && FilledUpTo(errLocs[..], e, i)
    {
      ErasureAt(shards, dataShards, m, i);
      Mark(errLocs, bits, i, true, recoverAll, e, from);
    }
    for i := 0 to dataShards
      invariant fresh(errLocs) && fresh(bits) && errLocs.Length == 256
      invariant bits.Raw() && MarkedUpTo(bits.marked, e, i + m, from) && FilledUpTo(errLocs[..], e, i + m)
    {
      ErasureAt(shards, dataShards, m, i + m);
      Mark(errLocs, bits, i + m, |shards[i]| == 0, true, e, from);
    }
    AllMarked(bits.marked, errLocs[..], shards, dataShards, m, recoverAll);
  }

  lemma NothingMarked(w: seq<nat>, e: seq<nat>, from: nat)
    requires |w| == |e| && forall j | 0 <= j < |w| :: w[j] == 0
    ensures MarkedUpTo({}, e, 0, from) && FilledUpTo(w, e, 0)
  {
  }

  // ---------- Solving one stretch of columns ----------

  // The positions whose result is used: all of them without the bitfield.
  ghost predicate Used(useBits: bool, marked: set<nat>, i: nat) {
    useBits ==> i in marked
  }

  // The transforms around the derivative, the last one pruned when useBits is set.
  method Solve(t: Leopard, work: array<Shard>, count: nat, n: nat, k: nat, bits: ErrorBitfield8, useBits: bool,
               ghost size: nat)
    requires n == Pow2(k) == work.Length && count <= n <= |t.skew| + 1 && n <= 256
    requires useBits ==> bits.Ready()
    requires t.Linear() && Uniform(work[..], size) && forall i | count <= i < n :: work[i] == Clear(size)
    modifies work
    ensures forall i | 0 <= i < count && Used(useBits, bits.marked, i) :: work[i] == Solved(t, old(work[..]), k)[i]
    ensures Uniform(work[..], size)
  {
    hide Leopard.Fft, Leopard.Ifft, Leopard.Linear, Pow2, Accumulated, Ready8, Solved;
    ghost var w := work[..];
    assert work[..n] == w;
    IfftDit(t, count, work, n, 0, k, size);
    ghost var x := work[..];
    t.IfftUniform(w, k, 0, size);
    assert x == work[..n] == t.Ifft(w, k, 0);
    Derive(work, n, k);
    ghost var y := work[..];
    assert y == Derivative(x, k);
    assert work[..n] == y;
    LeopardEncode.SizesKept(x, y, size);
    SolvedIs(t, w, k);
    if useBits {
      FftPruned8(t, work, count, n, k, bits);
    } else {
      FftTruncated(t, work, count, n, k);
      forall i | 0 <= i < count ensures work[i] == t.Fft(y, k, 0)[i] {
        assert work[..count][i] == t.Fft(y, k, 0)[..count][i];
      }
    }
    LeopardEncode.SizesKept(y, work[..], size);
  }

  // The rows of work that are received, scaled by the locator.
  method FillWork(work: array<Shard>, sh: seq<Shard>, dataShards: nat, parityShards: nat, m: nat, loc: seq<nat>,
                  size: nat)
    requires |sh| == dataShards + parityShards && parityShards <= m && m + dataShards <= work.Length <= 256
    requires |loc| == 256 && Partial(sh, size)
    modifies work
    ensures work[..] == Received(sh, dataShards, m, work.Length, loc, size)
  {
    hide MulShard, Clear;
    var n := work.Length;
    ghost var goal := Received(sh, dataShards, m, n, loc, size);
    for i := 0 to n
      invariant forall j | 0 <= j < i :: work[j] == goal[j]
    {
      if i < parityShards {
        work[i] := if |sh[i + dataShards]| != 0 then MulShard(loc[i], sh[i + dataShards]) else Clear(size);
      } else if i < m {
        work[i] := Clear(size);
      } else if i < m + dataShards {
        work[i] := if |sh[i - m]| != 0 then MulShard(loc[i], sh[i - m]) else Clear(size);
      } else {
        work[i] := Clear(size);
      }
    }
  }

  lemma MulShardCut(log: nat, y: Shard, lo: nat, hi: nat)
    requires lo <= hi <= |y|
    ensures MulShard(log, y[lo..hi]) == MulShard(log, y)[lo..hi]
  {
    hide MulLog8;
  }

  // The missing shards below limit hold the first done columns of goal; the others are as
  // they were.
  ghost predicate RestoredUpTo(now: seq<Shard>, orig: seq<Shard>, goal: seq<Shard>, limit: nat, done: nat) {
    && |now| == |orig| == |goal|
    && forall i | 0 <= i < |now| ::
         if i < limit && orig[i] == [] then LeopardCodec.UpTo(now[i], goal[i], done) else now[i] == orig[i]
  }

  // All there is to know about a run of reconstruct.
  datatype Run = Run(t: Leopard, orig: seq<Shard>, dataShards: nat, m: nat, k: nat, loc: seq<nat>, size: nat,
                     recoverAll: bool) {

    ghost predicate Valid() {
      && t.Linear() && Columnwise(t) && t.mul == MulShard && |t.skew| == 255
      && dataShards <= |orig| <= m + dataShards <= Pow2(k) <= 256
      && |loc| == 256 && (forall i | 0 <= i < 256 :: loc[i] < 256)
      && Partial(orig, size) && size > 0 && size % 64 == 0
    }

    function Limit(): nat {
      if recoverAll then |orig| else dataShards
    }

    ghost function Goal(): (r: seq<Shard>)
      requires Valid()
      ensures |r| == |orig|
    {
      seq(|orig|, i requires 0 <= i < |orig| && Valid() => Recovered(t, orig, dataShards, m, k, loc, size, i))
    }

    lemma Marked(i: nat)
      requires Valid() && i < Limit() && orig[i] == []
      ensures PositionOf(i, dataShards, m) in Marks(orig, dataShards, m, recoverAll)
      ensures PositionOf(i, dataShards, m) < m + dataShards
    {
      hide Leopard.Linear, Columnwise, Erasures, Pow2;
      ErasureAt(orig, dataShards, m, PositionOf(i, dataShards, m));
    }

    // What the stretch gives for shard i.
    lemma PieceOf(off: nat, end: nat, i: nat)
      requires Valid() && off < end <= size && off % 64 == 0 && end % 64 == 0 && i < |orig|
      ensures Pow2(k) <= |t.skew| + 1
      ensures var pos := PositionOf(i, dataShards, m);
              var rows := Received(CutPresent(orig, off, end), dataShards, m, Pow2(k), loc, end - off);
              && pos < Pow2(k) && |Goal()[i]| == size
              && MulShard(255 - loc[pos], Solved(t, rows, k)[pos]) == Goal()[i][off..end]
    {
      hide Leopard.Linear, Columnwise, Solved, Received, MulShard, Pow2;
      var pos := PositionOf(i, dataShards, m);
      LeopardCodec.LinearLength(t);
      ReceivedCut(orig, dataShards, m, Pow2(k), loc, off, end, size);
      var w := Received(orig, dataShards, m, Pow2(k), loc, size);
      SolvedCut(t, w, k, off, end, size);
      assert |Solved(t, w, k)[pos]| == size;
      MulShardCut(255 - loc[pos], Solved(t, w, k)[pos], off, end);
    }
  }

  // Row pos of work, scaled back.
  function Piece(r: Run, rows: seq<Shard>, i: nat): Shard
    requires r.m + r.dataShards <= |rows| <= 256 && |r.loc| == 256 && |r.orig| <= r.m + r.dataShards && i < |r.orig|
    requires forall j | 0 <= j < 256 :: r.loc[j] < 256
  {
    var pos := PositionOf(i, r.dataShards, r.m);
    MulShard(255 - r.loc[pos], rows[pos])
  }

  // The last loop of a block: missing shards take their columns from work.
  method Restore(r: Run, shards: array<Shard>, rows: seq<Shard>, off: nat, end: nat, ghost goal: seq<Shard>)
    requires r.m + r.dataShards <= |rows| <= 256 && |r.loc| == 256 && r.dataShards <= |r.orig| <= r.m + r.dataShards
    requires (forall j | 0 <= j < 256 :: r.loc[j] < 256) && off <= end && |goal| == |r.orig|
    requires forall i | 0 <= i < r.Limit() && r.orig[i] == [] ::
      end <= |goal[i]| && Piece(r, rows, i) == goal[i][off..end]
    requires RestoredUpTo(shards[..], r.orig, goal, r.Limit(), off)
    modifies shards
    ensures RestoredUpTo(shards[..], r.orig, goal, r.Limit(), end)
  {
    hide LeopardCodec.UpTo, Piece;
    ghost var start := shards[..];
    for i := 0 to r.Limit()
      invariant forall j | 0 <= j < shards.Length && j >= i :: shards[j] == start[j]
      invariant forall j | 0 <= j < i ::
        if r.orig[j] == [] then LeopardCodec.UpTo(shards[j], goal[j], end) else shards[j] == r.orig[j]
    {
      assert shards[i] == start[i];
      if |r.orig[i]| == 0 {
        assert LeopardCodec.UpTo(start[i], goal[i], off);
        LeopardCodec.UpToLength(shards[i], goal[i], off);
        LeopardCodec.UpToStep(shards[i], goal[i], Piece(r, rows, i), off, end);
        shards[i] := shards[i][..off] + Piece(r, rows, i) + shards[i][end..];
      }
    }
  }

  // One block of columns.
  method Stretch(r: Run, shards: array<Shard>, work: array<Shard>, bits: ErrorBitfield8, useBits: bool,
                 parityShards: nat, off: nat, end: nat)
    requires r.Valid() && |r.orig| == r.dataShards + parityShards && work.Length == Pow2(r.k) && work != shards
    requires off < end <= r.size && off % 64 == 0 && end % 64 == 0
    requires useBits ==> bits.Ready()
    requires bits.marked == Marks(r.orig, r.dataShards, r.m, r.recoverAll)
    requires RestoredUpTo(shards[..], r.orig, r.Goal(), r.Limit(), off)
    modifies shards, work
    ensures RestoredUpTo(shards[..], r.orig, r.Goal(), r.Limit(), end)
  {
    hide Leopard.Linear, Columnwise, Solved, Received, MulShard, Pow2, RestoredUpTo, Recovered, Marks, Ready8;
    hide CutPresent;
    var sh := CutPresent(r.orig, off, end);
    CutPartial(r.orig, off, end, r.size);
    FillWork(work, sh, r.dataShards, parityShards, r.m, r.loc, end - off);
    ReceivedTail(sh, r.dataShards, r.m, work.Length, r.loc, end - off);
    ReceivedUniform(sh, r.dataShards, r.m, work.Length, r.loc, end - off);
    Solve(r.t, work, r.m + r.dataShards, work.Length, r.k, bits, useBits, end - off);
    forall i | 0 <= i < r.Limit() && r.orig[i] == []
      ensures end <= |r.Goal()[i]| && Piece(r, work[..], i) == r.Goal()[i][off..end]
    {
      r.Marked(i);
      r.PieceOf(off, end, i);
    }
    Restore(r, shards, work[..], off, end, r.Goal());
  }

  lemma CutPartial(shards: seq<Shard>, off: nat, end: nat, size: nat)
    requires Partial(shards, size) && off < end <= size
    ensures Partial(CutPresent(shards, off, end), end - off)
  {
  }

  lemma ReceivedTail(sh: seq<Shard>, dataShards: nat, m: nat, n: nat, loc: seq<nat>, size: nat)
    requires dataShards <= |sh| && |loc| == 256 && m + dataShards <= 256
    ensures forall i | m + dataShards <= i < n :: Received(sh, dataShards, m, n, loc, size)[i] == Clear(size)
  {
    hide MulShard;
  }

  lemma ReceivedUniform(sh: seq<Shard>, dataShards: nat, m: nat, n: nat, loc: seq<nat>, size: nat)
    requires dataShards <= |sh| && |loc| == 256 && m + dataShards <= 256 && Partial(sh, size)
    ensures Uniform(Received(sh, dataShards, m, n, loc, size), size)
  {
    hide MulShard;
    var r := Received(sh, dataShards, m, n, loc, size);
    forall i | 0 <= i < n ensures |r[i]| == size {
      if i < m {
        assert i < |sh| - dataShards && i < 256 ==> r[i] == ScaledRow(sh[dataShards + i], loc[i], size);
      } else if i < m + dataShards {
        assert r[i] == ScaledRow(sh[i - m], loc[i], size);
      }
    }
  }

  // ---------- reconstruct ----------

  // The logarithms that the locator stands for.
  ghost function Residues(e: seq<nat>): (loc: seq<nat>)
    ensures |loc| == 256 && forall i | 0 <= i < 256 :: loc[i] < 255
  {
    seq(256, i requires 0 <= i => Locator(e, i) % 255)
  }

  lemma ResiduesLocate(e: seq<nat>)
    ensures Locates(Residues(e), e)
  {
    hide Locator;
    forall i: nat | i < 256 ensures Cong(Residues(e)[i], Locator(e, i), 255) {
      var v := Locator(e, i);
      ModUnique(v % 255, 0, v % 255, 255);
    }
  }

  // Nothing is computed when every shard that is asked for is there.
  function Complete(shards: seq<Shard>, dataShards: nat, recoverAll: bool): bool
    requires dataShards <= |shards|
  {
    || ReedSolomon.Present(shards, |shards|) == |shards|
    || (!recoverAll && ReedSolomon.Present(shards, dataShards) == dataShards)
  }

  // What reconstruct answers.
  ghost function Verdict(shards: seq<Shard>, dataShards: nat, total: nat, recoverAll: bool): Outcome<()>
    requires dataShards <= total
  {
    var first := ReedSolomon.Verdict(shards, dataShards, total, !recoverAll);
    if first.Err? || Complete(shards, dataShards, recoverAll) then first
    else if ReedSolomon.SizeOf(shards) % 64 != 0 then Err(ReedSolomon.InvalidShardSize)
    else first
  }

  // Enough shards of one length, a multiple of 64 if any that is asked for is missing.
  ghost predicate Suffices(shards: seq<Shard>, dataShards: nat, total: nat, recoverAll: bool) {
    && |shards| == total && ReedSolomon.OneSize(shards) && |ReedSolomon.Held(shards)| >= dataShards
    && ((forall i: nat | i < (if recoverAll then total else dataShards) :: i in ReedSolomon.Held(shards))
        || (forall i | i in ReedSolomon.Held(shards) :: |shards[i]| % 64 == 0))
  }

  // When reconstruct answers which error.
  lemma VerdictExactly(shards: seq<Shard>, dataShards: nat, total: nat, recoverAll: bool)
    requires 0 < dataShards <= total
    ensures var v := Verdict(shards, dataShards, total, recoverAll);
            var held := ReedSolomon.Held(shards);
            && (v == Ok(()) <==> Suffices(shards, dataShards, total, recoverAll))
            && (v == Err(ReedSolomon.ShardNoData) <==> |shards| == total && held == {})
            && (v == Err(ReedSolomon.ShardSize) <==> |shards| == total && held != {} && !ReedSolomon.OneSize(shards))
            && (v == Err(ReedSolomon.TooFewShards)
                <==> |shards| != total || (ReedSolomon.OneSize(shards) && |held| < dataShards))
  {
    hide ReedSolomon.Verdict, ReedSolomon.SizeOf, ReedSolomon.OneSize, Complete, ReedSolomon.Held;
    ReedSolomon.VerdictExactly(shards, dataShards, total, !recoverAll);
    if |shards| == total {
      CompleteMeans(shards, dataShards, recoverAll);
    }
    if ReedSolomon.OneSize(shards) {
      LeopardCodec.HeldSizes(shards);
    }
  }

  lemma CompleteMeans(shards: seq<Shard>, dataShards: nat, recoverAll: bool)
    requires dataShards <= |shards|
    ensures Complete(shards, dataShards, recoverAll)
       <==> forall i: nat | i < (if recoverAll then |shards| else dataShards) :: i in ReedSolomon.Held(shards)
  {
    hide ReedSolomon.Present;
    ReedSolomon.AllPresent(shards, |shards|);
    ReedSolomon.AllPresent(shards, dataShards);
    assert forall i: nat | i < |shards| :: shards[i] != [] <==> i in ReedSolomon.Held(shards);
  }

  // Whether reconstruct has anything to compute.
  ghost predicate Computes(shards: seq<Shard>, dataShards: nat, total: nat, recoverAll: bool)
    requires dataShards <= total
  {
    Verdict(shards, dataShards, total, recoverAll).Ok? && !Complete(shards, dataShards, recoverAll)
  }

  // The loop over blocks of columns, after the missing shards have been given room.
  method Decode(r: Run, shards: array<Shard>, pool: seq<Shard>, bits: ErrorBitfield8, useBits: bool, parityShards: nat)
    requires r.Valid() && |r.orig| == r.dataShards + parityShards && shards[..] == r.orig
    requires useBits ==> bits.Ready()
    requires bits.marked == Marks(r.orig, r.dataShards, r.m, r.recoverAll)
    modifies shards
    ensures forall i | 0 <= i < shards.Length ::
      shards[i] == if i < r.Limit() && r.orig[i] == [] then r.Goal()[i] else r.orig[i]
  {
    hide Leopard.Linear, Columnwise, Pow2, RestoredUpTo, Recovered, Marks, Ready8;
    var n := Pow2(r.k);
    var work := new Shard[n](i requires 0 <= i => if i < |pool| then pool[i] else []);
    for i := 0 to r.Limit()
      invariant forall j | 0 <= j < shards.Length ::
        shards[j] == if j < i && r.orig[j] == [] then Clear(r.size) else r.orig[j]
    {
      if |shards[i]| == 0 {
        shards[i] := Clear(r.size);
      }
    }
    Room(r, shards[..]);
    var off := 0;
    while off < r.size
      invariant off % 64 == 0
      invariant RestoredUpTo(shards[..], r.orig, r.Goal(), r.Limit(), LeopardEncode.Min(off, r.size))
      decreases r.size - off
    {
      var end := LeopardEncode.Min(off + LeopardCodec.WORK_SIZE, r.size);
      Stretch(r, shards, work, bits, useBits, parityShards, off, end);
      off := off + LeopardCodec.WORK_SIZE;
    }
    Finished(r, shards[..]);
  }

  lemma GoalSizes(r: Run)
    requires r.Valid()
    ensures forall i | 0 <= i < |r.orig| :: |r.Goal()[i]| == r.size
  {
    hide Leopard.Linear, Columnwise, Pow2, Recovered, Solved, Received;
    forall i | 0 <= i < |r.orig| ensures |r.Goal()[i]| == r.size {
      r.PieceOf(0, r.size, i);
    }
  }

  lemma Room(r: Run, now: seq<Shard>)
    requires r.Valid() && |now| == |r.orig|
    requires forall j | 0 <= j < |now| ::
      now[j] == if j < r.Limit() && r.orig[j] == [] then Clear(r.size) else r.orig[j]
    ensures RestoredUpTo(now, r.orig, r.Goal(), r.Limit(), 0)
  {
    hide Leopard.Linear, Columnwise, Pow2, Recovered;
    GoalSizes(r);
  }

  lemma Finished(r: Run, now: seq<Shard>)
    requires r.Valid() && RestoredUpTo(now, r.orig, r.Goal(), r.Limit(), r.size)
    ensures |now| == |r.orig|
    ensures forall i | 0 <= i < |now| :: now[i] == if i < r.Limit() && r.orig[i] == [] then r.Goal()[i] else r.orig[i]
  {
    hide Leopard.Linear, Columnwise, Pow2, Recovered, LeopardCodec.UpTo;
    GoalSizes(r);
    forall i | 0 <= i < |now| && i < r.Limit() && r.orig[i] == [] ensures now[i] == r.Goal()[i] {
      LeopardCodec.UpToLength(now[i], r.Goal()[i], r.size);
      LeopardCodec.UpToAll(now[i], r.Goal()[i]);
    }
  }

  // bitwidth8
  ghost function Bits(): (k: nat)
    ensures Pow2(k) == 256 && k % 2 == 0
  {
    PowersOfByte();
    var k: nat :| Pow2(k) == 256 && k % 2 == 0;
    k
  }

  // logWalsh8 over the integers.
  ghost function Spectrum(): (r: seq<int>)
    ensures |r| == 256
  {
    Wht(Logs(), Bits())
  }

  ghost predicate AllStand(v: seq<nat>, x: seq<int>) {
    |v| == |x| && forall i | 0 <= i < |v| :: Stands(v[i], x[i], 256)
  }

  // What initFFTSkew8 leaves in logWalsh8.
  ghost predicate WalshReady(logWalsh: seq<nat>) {
    AllStand(logWalsh, Spectrum())
  }

  // What the codec's tables must hold for the decoder.
  ghost predicate TablesReady(c: LeopardCodec.LeopardFF8, logWalsh: seq<nat>)
    reads c
  {
    c.Valid() && c.t.mul == MulShard && |c.t.skew| == 255 && WalshReady(logWalsh)
  }

  // Every shard has a position in errLocs.
  ghost predicate Positioned(c: LeopardCodec.LeopardFF8)
    reads c
  {
    Pow2(c.n) + c.dataShards <= 256
  }

  // The exponents of m and n.
  lemma TableFits(c: LeopardCodec.LeopardFF8, logWalsh: seq<nat>)
    requires TablesReady(c, logWalsh) && Positioned(c)
    ensures c.parityShards <= Pow2(c.n)
    ensures var k := LeopardCodec.BitLength(Pow2(c.n) + c.dataShards - 1);
            Pow2(c.n) + c.dataShards <= Pow2(k) <= 256
  {
    hide Leopard.Linear, Columnwise, WalshReady;
    LeopardCodec.CeilPow2(c.parityShards);
    var top := Pow2(c.n) + c.dataShards;
    LeopardCodec.CeilPow2(top);
    PowMonotonic(LeopardCodec.BitLength(top - 1), Bits());
  }

  // The missing shard i, from the residues of the locator, for positions that fit the tables.
  ghost function Answer(c: LeopardCodec.LeopardFF8, shards: seq<Shard>, i: nat): Shard
    requires i < |shards| && c.dataShards <= |shards|
    reads c
  {
    var m := Pow2(c.n);
    var k := LeopardCodec.BitLength(m + c.dataShards - 1);
    if |shards| - c.dataShards <= m && m + c.dataShards <= Pow2(k) <= |c.t.skew| + 1 && Pow2(k) <= 256 then
      var loc := Residues(Erasures(shards, c.dataShards, m));
      Recovered(c.t, shards, c.dataShards, m, k, loc, ReedSolomon.SizeOf(shards), i)
    else []
  }

  // ---------- Recovery ----------

  // The shards are what data was encoded to, with some of them missing.
  ghost predicate EncodedFrom(c: LeopardCodec.LeopardFF8, data: seq<Shard>, shards: seq<Shard>)
    requires c.Valid()
    reads c
  {
    && c.InTable() && |data| == c.dataShards && |shards| == c.dataShards + c.parityShards
    && Uniform(data, ReedSolomon.SizeOf(shards))
    && forall i | 0 <= i < |shards| :: shards[i] == [] || shards[i] == Encoding(c, data, ReedSolomon.SizeOf(shards))[i]
  }

  ghost function Encoding(c: LeopardCodec.LeopardFF8, data: seq<Shard>, size: nat): (r: seq<Shard>)
    requires c.Valid() && c.InTable() && |data| == c.dataShards
    reads c
    ensures |r| == c.dataShards + c.parityShards
  {
    LeopardCodec.CeilPow2(c.parityShards);
    data + LeopardEncode.Parity(c.t, data, c.n, c.parityShards, size)
  }

  lemma SettingOf(c: LeopardCodec.LeopardFF8, logWalsh: seq<nat>, data: seq<Shard>, shards: seq<Shard>)
    returns (g: Setting)
    requires TablesReady(c, logWalsh) && Positioned(c) && IsCodec(c.t) && EncodedFrom(c, data, shards)
    requires ReedSolomon.Present(shards, |shards|) >= c.dataShards
    ensures g.Valid() && g.Left(shards) && g.Shards() == Encoding(c, data, ReedSolomon.SizeOf(shards))
    ensures g == Setting(c.t, data, c.n, LeopardCodec.BitLength(Pow2(c.n) + c.dataShards - 1), c.parityShards,
                         ReedSolomon.SizeOf(shards))
  {
    hide Leopard.Linear, Columnwise, Pow2, LeopardEncode.Fits, LeopardEncode.Parity, IsCodec, WalshReady, Uniform;
    TableFits(c, logWalsh);
    var k := LeopardCodec.BitLength(Pow2(c.n) + c.dataShards - 1);
    g := Setting(c.t, data, c.n, k, c.parityShards, ReedSolomon.SizeOf(shards));
    if k < c.n {
      Words.PowRises(k, c.n);
    }
  }

  // Every missing shard comes back.
  lemma AnswerRestores(c: LeopardCodec.LeopardFF8, logWalsh: seq<nat>, data: seq<Shard>, shards: seq<Shard>, i: nat)
    requires TablesReady(c, logWalsh) && Positioned(c) && IsCodec(c.t) && EncodedFrom(c, data, shards)
    requires ReedSolomon.Present(shards, |shards|) >= c.dataShards && i < |shards| && shards[i] == []
    ensures Answer(c, shards, i) == Encoding(c, data, ReedSolomon.SizeOf(shards))[i]
  {
    hide *;
    TablesSize(c, logWalsh);
    EncodedCounts(c, data, shards);
    TableFits(c, logWalsh);
    var g := SettingOf(c, logWalsh, data, shards);
    var e := Erasures(shards, c.dataShards, Pow2(c.n));
    ResiduesLocate(e);
    AnswerIs(c, shards, i);
    Recovers(g, shards, Residues(e), i);
  }

  lemma EncodedCounts(c: LeopardCodec.LeopardFF8, data: seq<Shard>, shards: seq<Shard>)
    requires c.Valid() && EncodedFrom(c, data, shards)
    ensures |data| == c.dataShards && |shards| == c.dataShards + c.parityShards
  {
    hide LeopardCodec.LeopardFF8.Valid, Encoding, Uniform;
  }

  lemma TablesSize(c: LeopardCodec.LeopardFF8, logWalsh: seq<nat>)
    requires TablesReady(c, logWalsh)
    ensures |c.t.skew| == 255 && c.Valid()
  {
    hide LeopardCodec.LeopardFF8.Valid, WalshReady;
  }

  lemma AnswerIs(c: LeopardCodec.LeopardFF8, shards: seq<Shard>, i: nat)
    requires i < |shards| && c.dataShards <= |shards|
    requires var m := Pow2(c.n);
             var k := LeopardCodec.BitLength(m + c.dataShards - 1);
             |shards| - c.dataShards <= m && m + c.dataShards <= Pow2(k) <= |c.t.skew| + 1 && Pow2(k) <= 256
    ensures var m := Pow2(c.n);
            var k := LeopardCodec.BitLength(m + c.dataShards - 1);
            var loc := Residues(Erasures(shards, c.dataShards, m));
            Answer(c, shards, i) == Recovered(c.t, shards, c.dataShards, m, k, loc, ReedSolomon.SizeOf(shards), i)
  {
    hide Recovered, Residues, Erasures, Pow2;
  }

  // The shards asked for are those that data was encoded to.
  ghost predicate Restored(c: LeopardCodec.LeopardFF8, data: seq<Shard>, before: seq<Shard>, after: seq<Shard>,
                           recoverAll: bool)
    requires c.Valid() && EncodedFrom(c, data, before)
    reads c
  {
    && |after| == |before|
    && forall i | 0 <= i < |after| && (recoverAll || i < c.dataShards) ::
         after[i] == Encoding(c, data, ReedSolomon.SizeOf(before))[i]
  }

  lemma NothingMissing(c: LeopardCodec.LeopardFF8, shards: seq<Shard>, recoverAll: bool)
    requires c.Valid() && |shards| == c.dataShards + c.parityShards
    requires forall i | 0 <= i < |shards| && (recoverAll || i < c.dataShards) :: shards[i] != []
    ensures forall data: seq<Shard> | EncodedFrom(c, data, shards) :: Restored(c, data, shards, shards, recoverAll)
  {
    hide Leopard.Linear, Columnwise, Pow2, LeopardEncode.Fits, Encoding, Uniform;
  }

  lemma AllRestored(c: LeopardCodec.LeopardFF8, logWalsh: seq<nat>, before: seq<Shard>, after: seq<Shard>,
                    recoverAll: bool)
    requires TablesReady(c, logWalsh) && Positioned(c) && IsCodec(c.t) && |before| == c.dataShards + c.parityShards
    requires ReedSolomon.Present(before, |before|) >= c.dataShards && |after| == |before|
    requires forall i | 0 <= i < |after| ::
      after[i] == if (recoverAll || i < c.dataShards) && before[i] == [] then Answer(c, before, i) else before[i]
    ensures forall data: seq<Shard> | EncodedFrom(c, data, before) :: Restored(c, data, before, after, recoverAll)
  {
    hide Leopard.Linear, Columnwise, Pow2, LeopardEncode.Fits, Encoding, Answer, IsCodec, WalshReady, Uniform;
    forall data: seq<Shard> | EncodedFrom(c, data, before) ensures Restored(c, data, before, after, recoverAll) {
      forall i | 0 <= i < |after| && (recoverAll || i < c.dataShards)
        ensures after[i] == Encoding(c, data, ReedSolomon.SizeOf(before))[i]
      {
        if before[i] == [] {
          AnswerRestores(c, logWalsh, data, before, i);
        }
      }
    }
  }

  // The checks of reconstruct: its verdict, and whether there is anything to compute.
  method Consider(c: LeopardCodec.LeopardFF8, shards: array<Shard>, recoverAll: bool)
    returns (r: Outcome<()>, computes: bool, missing: nat, size: nat)
    ensures r == Verdict(shards[..], c.dataShards, c.dataShards + c.parityShards, recoverAll)
    ensures computes <==> Computes(shards[..], c.dataShards, c.dataShards + c.parityShards, recoverAll)
    ensures computes ==> shards.Length == c.dataShards + c.parityShards && size > 0 && size % 64 == 0
    ensures computes ==> size == ReedSolomon.SizeOf(shards[..]) && Partial(shards[..], size)
  {
    r, computes, missing, size := Ok(()), false, 0, 0;
    if shards.Length != c.dataShards + c.parityShards {
      r := Err(ReedSolomon.TooFewShards);
      return;
    }
    var check := ReedSolomon.CheckShards(shards, true);
    if check.Err? {
      r := Err(check.error);
      return;
    }
    var numberPresent, dataPresent := ReedSolomon.CountPresent(shards, c.dataShards);
    if numberPresent == shards.Length || (!recoverAll && dataPresent == c.dataShards) {
      return;
    }
    if numberPresent < c.dataShards {
      r := Err(ReedSolomon.TooFewShards);
      return;
    }
    size := check.value;
    if size % 64 != 0 {
      r := Err(ReedSolomon.InvalidShardSize);
      return;
    }
    ReedSolomon.AllPresent(shards[..], shards.Length);
    computes := true;
    missing := shards.Length - numberPresent;
  }

  // reconstruct
  method Rebuild(c: LeopardCodec.LeopardFF8, logWalsh: array<nat>, shards: array<Shard>, pool: seq<Shard>,
                 recoverAll: bool)
    returns (r: Outcome<()>)
    requires TablesReady(c, logWalsh[..])
    requires Computes(shards[..], c.dataShards, c.dataShards + c.parityShards, recoverAll) ==> Positioned(c)
    modifies shards
    ensures r == Verdict(old(shards[..]), c.dataShards, c.dataShards + c.parityShards, recoverAll)
    ensures Rebuilt(c, old(shards[..]), shards[..], recoverAll)
  {
    hide Positioned, Answer, TablesReady, Computes, Verdict;
    var computes, missing, size;
    r, computes, missing, size := Consider(c, shards, recoverAll);
    if computes {
      Recover(c, logWalsh, shards, pool, recoverAll, missing, size);
    }
  }

  // Present shards stay, and missing ones that are asked for become their Answer if there is
  // anything to compute.
  ghost predicate Rebuilt(c: LeopardCodec.LeopardFF8, before: seq<Shard>, after: seq<Shard>, recoverAll: bool)
    reads c
  {
    if Computes(before, c.dataShards, c.dataShards + c.parityShards, recoverAll) then
      && |after| == |before| && c.dataShards <= |before|
      && forall i | 0 <= i < |after| ::
           after[i] == if (recoverAll || i < c.dataShards) && before[i] == [] then Answer(c, before, i) else before[i]
    else after == before
  }

  // What was encoded is there again.
  lemma RebuiltIsRestored(c: LeopardCodec.LeopardFF8, logWalsh: seq<nat>, before: seq<Shard>, after: seq<Shard>,
                          recoverAll: bool)
    requires TablesReady(c, logWalsh) && IsCodec(c.t) && Rebuilt(c, before, after, recoverAll)
    requires Computes(before, c.dataShards, c.dataShards + c.parityShards, recoverAll) ==> Positioned(c)
    requires Verdict(before, c.dataShards, c.dataShards + c.parityShards, recoverAll).Ok?
    ensures forall data: seq<Shard> | EncodedFrom(c, data, before) :: Restored(c, data, before, after, recoverAll)
  {
    hide Leopard.Linear, Columnwise, Answer, IsCodec, EncodedFrom, Restored, WalshReady, Positioned;
    var d, total := c.dataShards, c.dataShards + c.parityShards;
    ReedSolomon.AllPresent(before, total);
    ReedSolomon.AllPresent(before, d);
    if Computes(before, d, total, recoverAll) {
      AllRestored(c, logWalsh, before, after, recoverAll);
    } else {
      NothingMissing(c, before, recoverAll);
    }
  }

  lemma CountsPositive(c: LeopardCodec.LeopardFF8, logWalsh: seq<nat>)
    requires TablesReady(c, logWalsh)
    ensures c.dataShards > 0 && c.parityShards > 0
  {
    hide WalshReady, Leopard.Linear, Columnwise;
  }

  // Reconstruct: from any dataShards shards that are left, all of them.
  method Reconstruct(c: LeopardCodec.LeopardFF8, logWalsh: array<nat>, shards: array<Shard>, pool: seq<Shard>)
    returns (r: Outcome<()>)
    requires TablesReady(c, logWalsh[..]) && IsCodec(c.t)
    requires Computes(shards[..], c.dataShards, c.dataShards + c.parityShards, true) ==> Positioned(c)
    modifies shards
    ensures r == Verdict(old(shards[..]), c.dataShards, c.dataShards + c.parityShards, true)
    ensures r == Ok(()) <==> Suffices(old(shards[..]), c.dataShards, c.dataShards + c.parityShards, true)
    ensures Rebuilt(c, old(shards[..]), shards[..], true)
    ensures r.Ok? ==> forall data: seq<Shard> | EncodedFrom(c, data, old(shards[..])) ::
      Restored(c, data, old(shards[..]), shards[..], true)
  {
    hide *;
    ghost var before := shards[..];
    CountsPositive(c, logWalsh[..]);
    VerdictExactly(before, c.dataShards, c.dataShards + c.parityShards, true);
    r := Rebuild(c, logWalsh, shards, pool, true);
    if r.Ok? {
      RebuiltIsRestored(c, logWalsh[..], before, shards[..], true);
    }
  }

  // ReconstructData: the data shards.
  method ReconstructData(c: LeopardCodec.LeopardFF8, logWalsh: array<nat>, shards: array<Shard>, pool: seq<Shard>)
    returns (r: Outcome<()>)
    requires TablesReady(c, logWalsh[..]) && IsCodec(c.t)
    requires Computes(shards[..], c.dataShards, c.dataShards + c.parityShards, false) ==> Positioned(c)
    modifies shards
    ensures r == Verdict(old(shards[..]), c.dataShards, c.dataShards + c.parityShards, false)
    ensures r == Ok(()) <==> Suffices(old(shards[..]), c.dataShards, c.dataShards + c.parityShards, false)
    ensures Rebuilt(c, old(shards[..]), shards[..], false)
    ensures r.Ok? ==> forall data: seq<Shard> | EncodedFrom(c, data, old(shards[..])) ::
      Restored(c, data, old(shards[..]), shards[..], false)
  {
    hide *;
    ghost var before := shards[..];
    CountsPositive(c, logWalsh[..]);
    VerdictExactly(before, c.dataShards, c.dataShards + c.parityShards, false);
    r := Rebuild(c, logWalsh, shards, pool, false);
    if r.Ok? {
      RebuiltIsRestored(c, logWalsh[..], before, shards[..], false);
    }
  }

  // The part of reconstruct that computes.
  method Recover(c: LeopardCodec.LeopardFF8, logWalsh: array<nat>, shards: array<Shard>, pool: seq<Shard>,
                 recoverAll: bool,
                 missing: nat, size: nat)
    requires TablesReady(c, logWalsh[..]) && Positioned(c) && shards.Length == c.dataShards + c.parityShards
    requires size > 0 && size % 64 == 0 && size == ReedSolomon.SizeOf(shards[..]) && Partial(shards[..], size)
    modifies shards
    ensures forall i | 0 <= i < shards.Length ::
      shards[i] == if (recoverAll || i < c.dataShards) && old(shards[..])[i] == [] then Answer(c, old(shards[..]), i)
                   else old(shards[..])[i]
  {
    hide Leopard.Linear, Columnwise, Pow2, Wht, Recovered, Erasures, Marks, Unmerged, Ready8, Residues, Locates;
    var orig := shards[..];
    TableFits(c, logWalsh[..]);
    var useBits := missing <= c.parityShards / 4 && size * shards.Length >= 65536;
    var m := Pow2(c.n);
    var k := LeopardCodec.BitLength(m + c.dataShards - 1);
    var errLocs, bits := FillErrors(orig, c.dataShards, c.parityShards, m, recoverAll);
    if useBits {
      bits.Prepare();
    }
    ghost var e := errLocs[..];
    Locate(errLocs, logWalsh, orig, c.dataShards, m);
    LocatesBytes(errLocs[..], e);
    var r := Run(c.t, orig, c.dataShards, m, k, errLocs[..], size, recoverAll);
    Decode(r, shards, pool, bits, useBits, c.parityShards);
    forall i | 0 <= i < |orig| ensures r.Goal()[i] == Answer(c, orig, i) {
      ResiduesLocate(e);
      RecoveredCong(c.t, orig, c.dataShards, m, k, r.loc, Residues(e), e, size, i);
    }
  }

  lemma AllStandEach(v: seq<nat>, x: seq<int>)
    requires AllStand(v, x)
    ensures |v| == |x| && forall i | 0 <= i < |v| :: Stands(v[i], x[i], 256)
  {
  }

  method Locate(errLocs: array<nat>, logWalsh: array<nat>, ghost orig: seq<Shard>, dataShards: nat, m: nat)
    requires errLocs.Length == 256 && errLocs != logWalsh && WalshReady(logWalsh[..])
    requires dataShards <= |orig| <= m + dataShards <= 256 && errLocs[..] == Erasures(orig, dataShards, m)
    modifies errLocs
    ensures errLocs.Length == 256 && Locates(errLocs[..], old(errLocs[..]))
  {
    hide Wht, Stands, Pow2, Sigma, Paired, Erasures;
    AllStandEach(logWalsh[..], Spectrum());
    assert forall i | 0 <= i < 256 :: logWalsh[i] == logWalsh[..][i];
    forall i | 0 <= i < 256 ensures errLocs[i] < 256 && (i >= m + dataShards ==> errLocs[i] == 0) {
      ErasureAt(orig, dataShards, m, i);
      assert errLocs[i] == errLocs[..][i];
    }
    EvaluateLocator(errLocs, logWalsh, m + dataShards, 256, Bits(), Logs());
  }

  // The tables that the codec starts from: those of the skew factors and of the transformed
  // logarithms are right.
  method InitTables() returns (fftSkew: array<nat>, logWalsh: array<nat>)
    ensures fresh(fftSkew) && SkewRight(fftSkew[..])
    ensures fresh(logWalsh) && WalshReady(logWalsh[..])
  {
    hide Wht, Stands, Log8, Field8, AllStand, Logs, CantorField.Field.Log, CantorField.Field.Valid, SkewRight,
         CantorField.Field.Cantor, SkewTable.TableRight;
    var f := Field8();
    Field8Valid();
    CantorLaw.Cantor8();
    var logLUT, expLUT := LogTables.InitLUTs(f);
    fftSkew := SkewTable.InitFFTSkew(f);
    SkewIsRight(fftSkew[..]);
    var logs: seq<nat> := logLUT[..];
    LogsAre(logs);
    logWalsh := InitLogWalsh(logs, 256, Bits());
    StandTogether(logWalsh[..], Spectrum());
  }

  lemma SkewIsRight(skew: seq<nat>)
    requires Field8().Valid() && |skew| == 255 && Field8().Order() == 256 && SkewTable.TableRight(Field8(), skew)
    ensures SkewRight(skew)
  {
    hide Field8, CantorField.Field.Log, CantorField.Field.Valid, CantorField.Field.Order, Pow2;
    forall q: nat, b: nat ensures EntryRight(skew, q, b) {
      assert SkewTable.EntryOf(Field8(), skew, q, b);
    }
  }

  lemma LogsAre(logs: seq<nat>)
    requires Field8().Valid() && Field8().Order() == 256
    requires |logs| == 256 && forall a: nat | a < 256 :: logs[a] == Field8().Log(a)
    ensures logs[0 := 0] == Logs() && forall i | 0 <= i < 256 :: logs[i] < 256
  {
    hide CantorField.Field.Log, CantorField.Field.Valid;
    forall a: nat | a < 256 ensures logs[a] < 256 {
      LogBound8(a);
    }
  }

  lemma StandTogether(v: seq<nat>, x: seq<int>)
    requires |v| == |x| && forall i | 0 <= i < |v| :: Stands(v[i], x[i], 256)
    ensures AllStand(v, x)
  {
  }
}
