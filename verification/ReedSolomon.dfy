// reedsolomon.go: encoding, verification and reconstruction of shards with a coding matrix
// and a cache of decoding matrices.
module ReedSolomon {

  import opened Wrappers
  import opened Galois
  import opened LinearAlgebra
  import opened SolutionSets
  import opened Matrix
  import opened Vandermonde
  import opened CodingMatrix
  import opened InversionTree
  import opened Pigeonhole

  datatype CodecError = TooFewShards | ShardNoData | ShardSize | InvShardNum | MaxShardNum | InvalidShardSize

  type Outcome<+T> = Result<T, CodecError>

  type Shard = Row

  // ---------- galMulSlice and codeSomeShards ----------

  method GalMulSlice(c: Byte, input: Shard, outputs: array<Shard>, o: nat, start: nat, end: nat)
    requires o < outputs.Length && start <= end <= |input| && |outputs[o]| == |input|
    modifies outputs
    ensures outputs[..] == old(outputs[..])[o := outputs[o]] && |outputs[o]| == |input|
    ensures forall n | 0 <= n < |input| ::
      outputs[o][n] == if start <= n < end then GalMultiply(c, input[n]) else old(outputs[o])[n]
  {
    hide GalMultiply;
    for n := start to end
      invariant outputs[..] == old(outputs[..])[o := outputs[o]] && |outputs[o]| == |input|
      invariant forall k | 0 <= k < |input| ::
        outputs[o][k] == if start <= k < n then GalMultiply(c, input[k]) else old(outputs[o])[k]
    {
      if c == 1 {
        MulLaws(input[n], 1, 0);
        outputs[o] := outputs[o][n := input[n]];
      } else {
        outputs[o] := outputs[o][n := GalMultiply(c, input[n])];
      }
    }
  }

  method GalMulSliceXor(c: Byte, input: Shard, outputs: array<Shard>, o: nat, start: nat, end: nat)
    requires o < outputs.Length && start <= end <= |input| && |outputs[o]| == |input|
    modifies outputs
    ensures outputs[..] == old(outputs[..])[o := outputs[o]] && |outputs[o]| == |input|
    ensures forall n | 0 <= n < |input| ::
      outputs[o][n] == if start <= n < end then GalAdd(old(outputs[o])[n], GalMultiply(c, input[n]))
                       else old(outputs[o])[n]
  {
    hide GalMultiply, GalAdd;
    for n := start to end
      invariant outputs[..] == old(outputs[..])[o := outputs[o]] && |outputs[o]| == |input|
      invariant forall k | 0 <= k < |input| ::
        outputs[o][k] == if start <= k < n then GalAdd(old(outputs[o])[k], GalMultiply(c, input[k]))
                         else old(outputs[o])[k]
    {
      if c == 1 {
        MulLaws(input[n], 1, 0);
        outputs[o] := outputs[o][n := GalAdd(outputs[o][n], input[n])];
      } else {
        outputs[o] := outputs[o][n := GalAdd(outputs[o][n], GalMultiply(c, input[n]))];
      }
    }
  }

  // Bytes lo to hi of each output hold the sum over the first c inputs.
  ghost predicate Coded(outputs: seq<Shard>, rows: seq<Row>, inputs: Grid, size: nat, lo: nat, hi: nat, c: nat)
    requires |outputs| == |rows| && hi <= size
    requires forall i | 0 <= i < |rows| :: |outputs[i]| == size && c <= |rows[i]|
    requires c <= |inputs| && IsGrid(inputs, |inputs|, size)
  {
    forall i, n | 0 <= i < |rows| && lo <= n < hi :: outputs[i][n] == Combine(rows[i], inputs, size, c)[n]
  }

  method CodeSomeShards(rows: seq<Row>, inputs: seq<Shard>, outputs: array<Shard>, perRound: nat)
    requires |rows| == outputs.Length && inputs != [] && perRound > 0
    requires IsGrid(inputs, |inputs|, |inputs[0]|)
    requires forall i | 0 <= i < |rows| :: |rows[i]| == |inputs| && |outputs[i]| == |inputs[0]|
    modifies outputs
    ensures outputs[..] == Product(rows, inputs, |inputs[0]|)
  {
    hide Combine;
    var size := |inputs[0]|;
    var start := 0;
    var end := if perRound > size then size else perRound;
    while start < size
      invariant 0 <= start <= end <= size && (start < size ==> start < end)
      invariant forall i | 0 <= i < |rows| :: |outputs[i]| == size
      invariant Coded(outputs[..], rows, inputs, size, 0, start, |inputs|)
      decreases size - start
    {
      for c := 0 to |inputs|
        invariant forall i | 0 <= i < |rows| :: |outputs[i]| == size
        invariant Coded(outputs[..], rows, inputs, size, 0, start, |inputs|)
        invariant c > 0 ==> Coded(outputs[..], rows, inputs, size, start, end, c)
      {
        CodeInput(rows, inputs, outputs, c, start, end);
      }
      start := end;
      end := end + perRound;
      if end > size {
        end := size;
      }
    }
    forall i | 0 <= i < |rows| ensures outputs[i] == Combine(rows[i], inputs, size, |inputs|) {
      assert outputs[..][i] == outputs[i];
    }
  }

  // The loop over the outputs for input c.
  method CodeInput(rows: seq<Row>, inputs: seq<Shard>, outputs: array<Shard>, c: nat, start: nat, end: nat)
    requires |rows| == outputs.Length && c < |inputs|
    requires IsGrid(inputs, |inputs|, |inputs[0]|) && start <= end <= |inputs[0]|
    requires forall i | 0 <= i < |rows| :: |rows[i]| == |inputs| && |outputs[i]| == |inputs[0]|
    requires c > 0 ==> Coded(outputs[..], rows, inputs, |inputs[0]|, start, end, c)
    modifies outputs
    ensures forall i | 0 <= i < |rows| :: |outputs[i]| == |inputs[0]|
    ensures forall i, n | 0 <= i < |rows| && 0 <= n < start :: outputs[i][n] == old(outputs[i])[n]
    ensures Coded(outputs[..], rows, inputs, |inputs[0]|, start, end, c + 1)
  {
    var size := |inputs[0]|;
    for iRow := 0 to |rows|
      invariant forall i | 0 <= i < |rows| :: |outputs[i]| == size
      invariant forall i, n | 0 <= i < |rows| && 0 <= n < start :: outputs[i][n] == old(outputs[i])[n]
      invariant forall i | iRow <= i < |rows| :: outputs[i] == old(outputs[i])
      invariant forall i, n | 0 <= i < iRow && start <= n < end ::
        outputs[i][n] == Combine(rows[i], inputs, size, c + 1)[n]
    {
      hide GalAdd, GalMultiply, Combine;
      CombineNext(rows[iRow], inputs, size, c);
      assert old(outputs[..])[iRow] == outputs[iRow];
      if c == 0 {
        GalMulSlice(rows[iRow][c], inputs[c], outputs, iRow, start, end);
      } else {
        GalMulSliceXor(rows[iRow][c], inputs[c], outputs, iRow, start, end);
      }
    }
  }

  lemma CombineNext(u: Row, m: Grid, cols: nat, n: nat)
    requires n < |u| && n < |m| && IsGrid(m, |m|, cols)
    ensures forall p | 0 <= p < cols ::
      Combine(u, m, cols, n + 1)[p] == GalAdd(Combine(u, m, cols, n)[p], GalMultiply(u[n], m[n][p]))
    ensures n == 0 ==> forall p | 0 <= p < cols ::
      Combine(u, m, cols, n + 1)[p] == GalMultiply(u[n], m[n][p])
  {
    hide GalAdd, GalMultiply;
    forall p | 0 <= p < cols && n == 0 ensures Combine(u, m, cols, 1)[p] == GalMultiply(u[0], m[0][p]) {
      AddLaws(GalMultiply(u[0], m[0][p]), 0, 0);
    }
  }

  // ---------- checkShards ----------

  // The length of the first shard that is not empty, or 0.
  function SizeOf(shards: seq<Shard>): nat {
    if shards == [] then 0 else if shards[0] != [] then |shards[0]| else SizeOf(shards[1..])
  }

  method ShardSizeOf(shards: array<Shard>) returns (size: nat)
    ensures size == SizeOf(shards[..])
  {
    for i := 0 to shards.Length
      invariant SizeOf(shards[..]) == SizeOf(shards[i..])
    {
      if |shards[i]| != 0 {
        return |shards[i]|;
      }
      assert shards[i..][1..] == shards[i + 1..];
    }
    return 0;
  }

  // All shards have one positive length; missing ones are empty where that is allowed.
  ghost predicate Consistent(shards: seq<Shard>, nilok: bool) {
    && SizeOf(shards) > 0
    && (forall i | 0 <= i < |shards| :: |shards[i]| == SizeOf(shards) || (nilok && shards[i] == []))
  }

  // What the number of shards and their lengths decide.
  ghost function ShapeVerdict(shards: seq<Shard>, total: nat, nilok: bool): Outcome<()> {
    if |shards| != total then Err(TooFewShards)
    else if Consistent(shards, nilok) then Ok(())
    else Err(if SizeOf(shards) == 0 then ShardNoData else ShardSize)
  }

  method CheckShards(shards: array<Shard>, nilok: bool) returns (r: Outcome<nat>)
    ensures r == if Consistent(shards[..], nilok) then Ok(SizeOf(shards[..]))
                 else Err(if SizeOf(shards[..]) == 0 then ShardNoData else ShardSize)
  {
    var size := ShardSizeOf(shards);
    if size == 0 {
      return Err(ShardNoData);
    }
    for k := 0 to shards.Length
      invariant forall i | 0 <= i < k :: |shards[..][i]| == size || (nilok && shards[..][i] == [])
    {
      if |shards[k]| != size {
        if |shards[k]| != 0 || !nilok {
          assert shards[..][k] == shards[k];
          return Err(ShardSize);
        }
      }
    }
    return Ok(size);
  }

  // ---------- Counting and listing ----------

  function Present(shards: seq<Shard>, n: nat): nat
    requires n <= |shards|
  {
    if n == 0 then 0 else Present(shards, n - 1) + (if shards[n - 1] != [] then 1 else 0)
  }

  // The count at the start of reconstruct.
  method CountPresent(shards: array<Shard>, dataShards: nat) returns (numberPresent: nat, dataPresent: nat)
    requires dataShards <= shards.Length
    ensures numberPresent == Present(shards[..], shards.Length)
    ensures dataPresent == Present(shards[..], dataShards)
  {
    numberPresent, dataPresent := 0, 0;
    for i := 0 to shards.Length
      invariant numberPresent == Present(shards[..], i)
      invariant dataPresent == Present(shards[..], if i < dataShards then i else dataShards)
    {
      if |shards[i]| != 0 {
        numberPresent := numberPresent + 1;
        if i < dataShards {
          dataPresent := dataPresent + 1;
        }
      }
    }
  }

  function Missing(shards: seq<Shard>, lo: nat, hi: nat): (idx: seq<nat>)
    requires lo <= hi <= |shards|
    ensures forall i | 0 <= i < |idx| :: lo <= idx[i] < hi
  {
    if lo == hi then [] else Missing(shards, lo, hi - 1) + (if shards[hi - 1] == [] then [hi - 1] else [])
  }

  lemma {:induction false} MissingLists(shards: seq<Shard>, lo: nat, hi: nat)
    requires lo <= hi <= |shards|
    ensures Distinct(Missing(shards, lo, hi))
    ensures forall i: nat :: i in Missing(shards, lo, hi) <==> lo <= i < hi && shards[i] == []
  {
    if lo != hi {
      MissingLists(shards, lo, hi - 1);
    }
  }

  // The indices below n that are not in the list.
  function Complement(invalid: seq<nat>, n: nat): (valid: seq<nat>)
    ensures forall i | 0 <= i < |valid| :: valid[i] < n
  {
    if n == 0 then [] else Complement(invalid, n - 1) + (if n - 1 in invalid then [] else [n - 1])
  }

  lemma {:induction false} ComplementDistinct(invalid: seq<nat>, n: nat)
    ensures Distinct(Complement(invalid, n))
  {
    if n != 0 {
      ComplementDistinct(invalid, n - 1);
    }
  }

  lemma {:induction false} ComplementAppend(invalid: seq<nat>, row: nat, n: nat)
    requires n <= row
    ensures Complement(invalid + [row], n) == Complement(invalid, n)
  {
    if n != 0 {
      ComplementAppend(invalid, row, n - 1);
    }
  }

  lemma {:induction false} ComplementOfNone(n: nat)
    ensures Complement([], n) == Upto(n)
  {
    if n != 0 {
      ComplementOfNone(n - 1);
    }
  }

  lemma {:induction false} KeyAppend(key: Key, lo: nat, row: nat, hi: nat)
    requires IsKey(key, lo, row) && lo <= row < hi
    ensures IsKey(key + [row], lo, hi)
  {
    if key != [] {
      KeyAppend(key[1..], key[0] + 1, row, hi);
      assert (key + [row])[1..] == key[1..] + [row];
    } else {
      assert (key + [row])[1..] == [];
    }
  }

  lemma {:induction false} KeyWiden(key: Key, lo: nat, hi: nat, wider: nat)
    requires IsKey(key, lo, hi) && hi <= wider
    ensures IsKey(key, lo, wider)
  {
    if key != [] {
      KeyWiden(key[1..], key[0] + 1, hi, wider);
    }
  }

  // The first row shards, split into those present and those missing.
  ghost predicate Scanned(shards: seq<Shard>, valid: seq<nat>, invalid: Key, row: nat) {
    && row <= |shards|
    && |valid| + |invalid| == row && |valid| == Present(shards, row)
    && IsKey(invalid, 0, row) && valid == Complement(invalid, row)
    && (forall i | 0 <= i < |valid| :: valid[i] < row && shards[valid[i]] != [])
    && (forall i | 0 <= i < |invalid| :: invalid[i] < row)
  }

  lemma ScanStep(shards: seq<Shard>, valid: seq<nat>, invalid: Key, row: nat)
    requires Scanned(shards, valid, invalid, row) && row < |shards|
    ensures shards[row] != [] ==> Scanned(shards, valid + [row], invalid, row + 1)
    ensures shards[row] == [] ==> Scanned(shards, valid, invalid + [row], row + 1)
  {
    hide IsKey;
    if shards[row] != [] {
      KeyWiden(invalid, 0, row, row + 1);
      assert row !in invalid;
    } else {
      ComplementAppend(invalid, row, row);
      KeyAppend(invalid, 0, row, row + 1);
      assert (invalid + [row])[|invalid|] == row;
    }
  }

  // ---------- What the errors mean ----------

  // The numbers of the shards that are there.
  ghost function Held(shards: seq<Shard>): set<nat> {
    set i: nat | i < |shards| && shards[i] != []
  }

  // Some shard is there, and those that are have one length.
  ghost predicate OneSize(shards: seq<Shard>) {
    Held(shards) != {} && forall i, j | i in Held(shards) && j in Held(shards) :: |shards[i]| == |shards[j]|
  }

  lemma {:induction false} SizeIsHeld(shards: seq<Shard>)
    ensures SizeOf(shards) == 0 ==> forall i | 0 <= i < |shards| :: shards[i] == []
    ensures SizeOf(shards) > 0 ==> exists i: nat :: i < |shards| && |shards[i]| == SizeOf(shards)
  {
    if shards != [] && shards[0] == [] {
      SizeIsHeld(shards[1..]);
      if SizeOf(shards) > 0 {
        var i: nat :| i < |shards[1..]| && |shards[1..][i]| == SizeOf(shards);
        assert |shards[i + 1]| == SizeOf(shards);
      }
    }
  }

  lemma SizesMean(shards: seq<Shard>)
    ensures Consistent(shards, true) <==> OneSize(shards)
    ensures Consistent(shards, false) <==> OneSize(shards) && forall i: nat | i < |shards| :: i in Held(shards)
    ensures SizeOf(shards) == 0 <==> Held(shards) == {}
  {
    hide SizeOf;
    SizeIsHeld(shards);
    if SizeOf(shards) > 0 {
      var i: nat :| i < |shards| && |shards[i]| == SizeOf(shards);
      assert i in Held(shards);
    }
  }

  lemma {:induction false} HeldCount(shards: seq<Shard>, n: nat)
    requires n <= |shards|
    ensures Present(shards, n) == |set i: nat | i < n && shards[i] != []|
  {
    var held := set i: nat | i < n && shards[i] != [];
    if n > 0 {
      HeldCount(shards, n - 1);
      HeldNext(shards, n);
    } else {
      assert held == {};
    }
  }

  lemma HeldNext(shards: seq<Shard>, n: nat)
    requires 0 < n <= |shards|
    ensures |set i: nat | i < n && shards[i] != []|
         == |set i: nat | i < n - 1 && shards[i] != []| + if shards[n - 1] != [] then 1 else 0
  {
    var held := set i: nat | i < n && shards[i] != [];
    var rest := set i: nat | i < n - 1 && shards[i] != [];
    if shards[n - 1] != [] {
      assert held == rest + {n - 1};
    } else {
      assert held == rest;
    }
  }

  // What Encode and Verify answer.
  lemma ShapeExactly(shards: seq<Shard>, total: nat)
    ensures ShapeVerdict(shards, total, false) == Ok(())
       <==> |shards| == total && OneSize(shards) && forall i: nat | i < total :: i in Held(shards)
    ensures ShapeVerdict(shards, total, false).Ok? <==> ShapeVerdict(shards, total, false) == Ok(())
    ensures ShapeVerdict(shards, total, false) == Err(TooFewShards) <==> |shards| != total
    ensures ShapeVerdict(shards, total, false) != Err(InvalidShardSize)
    ensures ShapeVerdict(shards, total, false) == Err(ShardNoData) <==> |shards| == total && Held(shards) == {}
  {
    hide Consistent, SizeOf, OneSize, Held;
    SizesMean(shards);
    SomeHeld(shards);
  }

  // Enough shards of one length.
  ghost predicate Suffices(shards: seq<Shard>, k: nat, total: nat) {
    |shards| == total && OneSize(shards) && |Held(shards)| >= k
  }

  // What reconstruct answers: any dataShards shards of one length are enough, whether all shards
  // are asked for or the data alone.
  lemma VerdictExactly(shards: seq<Shard>, k: nat, total: nat, dataOnly: bool)
    requires 0 < k <= total
    ensures var v := Verdict(shards, k, total, dataOnly);
            && (v == Ok(()) <==> Suffices(shards, k, total))
            && (v == Err(ShardNoData) <==> |shards| == total && Held(shards) == {})
            && (v == Err(ShardSize) <==> |shards| == total && Held(shards) != {} && !OneSize(shards))
            && (v == Err(TooFewShards) <==> |shards| != total || (OneSize(shards) && |Held(shards)| < k))
  {
    hide Consistent, SizeOf, OneSize, Present;
    SizesMean(shards);
    HeldCount(shards, |shards|);
    if |shards| == total {
      PresentGrows(shards, k, total);
    }
    SomeHeld(shards);
  }

  lemma SomeHeld(shards: seq<Shard>)
    ensures OneSize(shards) ==> Held(shards) != {}
  {
    hide Held;
  }

  lemma {:induction false} PresentGrows(shards: seq<Shard>, k: nat, n: nat)
    requires k <= n <= |shards|
    ensures Present(shards, k) <= Present(shards, n) <= Present(shards, k) + n - k
  {
    if k < n {
      PresentGrows(shards, k, n - 1);
    }
  }

  // ---------- Shards that are lost ----------

  lemma {:induction false} PresentAfter(shards: seq<Shard>, n: nat, lost: set<nat>)
    requires n <= |shards| && forall i | 0 <= i < n && shards[i] == [] :: i in lost
    ensures Present(shards, n) + |lost| >= n
    decreases n
  {
    if n > 0 {
      if shards[n - 1] == [] {
        var rest := lost - {n - 1};
        assert lost == rest + {n - 1};
        PresentAfter(shards, n - 1, rest);
      } else {
        PresentAfter(shards, n - 1, lost);
      }
    }
  }

  // What is left of shards of one length.
  lemma LeftShape(left: seq<Shard>, whole: seq<Shard>, lost: set<nat>, size: nat)
    requires |left| == |whole| && |lost| < |left| && size > 0 && IsGrid(whole, |whole|, size)
    requires forall i | 0 <= i < |left| :: left[i] == if i in lost then [] else whole[i]
    ensures OneSize(left) && |Held(left)| + |lost| >= |left| && SizeOf(left) == size
    ensures |Held(left)| == Present(left, |left|)
  {
    hide SizeOf, Present;
    PresentAfter(left, |left|, lost);
    HeldCount(left, |left|);
    SizesMean(left);
    SizeIsHeld(left);
  }

  // ---------- The codec ----------

  // Each cached matrix inverts the rows left when the key's rows are missing.
  ghost predicate CacheSound(contents: map<Key, Grid>, m: Grid, k: nat, total: nat)
    requires IsGrid(m, total, k)
  {
    forall key | key in contents :: DecodesKey(key, contents[key], m, k, total)
  }

  ghost predicate DecodesKey(key: Key, decode: Grid, m: Grid, k: nat, total: nat)
    requires IsGrid(m, total, k)
  {
    var valid := Complement(key, k + |key|);
    |valid| == k && k + |key| <= total ==> AreInverse(Select(m, k, valid), decode, k)
  }

  // Every shard present is the one the data encodes to.
  ghost predicate Agrees(shards: seq<Shard>, m: Grid, k: nat, data: Grid, size: nat)
    requires IsGrid(m, |shards|, k)
  {
    && size > 0 && IsGrid(data, k, size)
    && forall i | 0 <= i < |shards| && shards[i] != [] :: shards[i] == Combine(m[i], data, size, k)
  }

  class Codec {
    const dataShards: nat
    const parityShards: nat
    const totalShards: nat
    const m: Grid
    const perRound: nat
    const tree: Tree

    ghost predicate Valid()
      reads this, tree, tree.root, tree.root.Repr
    {
      && 0 < dataShards && 0 < parityShards && totalShards == dataShards + parityShards <= 256
      && IsCodingMatrix(m, dataShards, totalShards) && IsBuilt(m, dataShards, totalShards)
      && perRound > 0
      && tree.Valid() && tree.shards == totalShards && [] in tree.Contents()
      && CacheSound(tree.Contents(), m, dataShards, totalShards)
    }

    constructor (dataShards: nat, parityShards: nat, perRound: nat)
      requires 0 < dataShards && 0 < parityShards && dataShards + parityShards <= 256 && perRound > 0
      ensures Valid() && fresh(tree) && fresh(tree.root) && fresh(tree.root.Repr)
      ensures this.dataShards == dataShards && this.parityShards == parityShards
      ensures totalShards == dataShards + parityShards && OnlyBuilt(m, dataShards, totalShards)
    {
      hide IsCodingMatrix, IsBuilt, Node.Valid, Select, Identity;
      var r := BuildMatrix(dataShards, dataShards + parityShards);
      this.dataShards := dataShards;
      this.parityShards := parityShards;
      totalShards := dataShards + parityShards;
      m := r.value[..];
      this.perRound := perRound;
      tree := new Tree(dataShards, parityShards);
      EmptyKeyDecodes(r.value[..], dataShards, dataShards + parityShards);
    }

    // The loop that lists the shards present until there are enough of them.
    method ScanShards(shards: array<Shard>) returns (valid: seq<nat>, invalid: Key)
      requires shards.Length == totalShards && 0 < dataShards <= Present(shards[..], totalShards)
      ensures |valid| == dataShards && dataShards + |invalid| <= totalShards
      ensures Scanned(shards[..], valid, invalid, dataShards + |invalid|)
    {
      hide Scanned;
      valid, invalid := [], [];
      var matrixRow := 0;
      assert Scanned(shards[..], [], [], 0) by {
        EmptyScan(shards[..]);
      }
      while matrixRow < totalShards && |valid| < dataShards
        invariant 0 <= matrixRow <= totalShards && |valid| <= dataShards
        invariant Scanned(shards[..], valid, invalid, matrixRow)
      {
        ScanStep(shards[..], valid, invalid, matrixRow);
        if |shards[matrixRow]| != 0 {
          valid := valid + [matrixRow];
        } else {
          invalid := invalid + [matrixRow];
        }
        matrixRow := matrixRow + 1;
      }
      ScanEnds(shards[..], valid, invalid, matrixRow);
    }

    // The cached decoding matrix for the missing rows, or a new one that is then cached. Either
    // is the one inverse there is.
    method DecodeMatrix(valid: seq<nat>, invalid: Key) returns (decode: Grid)
      requires Valid() && IsKey(invalid, 0, totalShards)
      requires |valid| == dataShards && dataShards + |invalid| <= totalShards
      requires valid == Complement(invalid, dataShards + |invalid|)
      modifies tree.root.Repr
      ensures Valid() && fresh(tree.root.Repr - old(tree.root.Repr))
      ensures IsTheInverse(Select(m, dataShards, valid), decode, dataShards)
    {
      hide Node.Valid, Select, Regular, Complement, Product, Identity, Apply, IsKey;
      var cached := GetInvertedMatrix(tree, invalid);
      if cached.Some? {
        assert DecodesKey(invalid, cached.value, m, dataShards, totalShards);
        OnlyInverse(Select(m, dataShards, valid), cached.value, dataShards);
        return cached.value;
      }
      decode := InvertRows(valid, invalid);
      OnlyInverse(Select(m, dataShards, valid), decode, dataShards);
      var e := InsertInvertedMatrix(tree, invalid, decode);
      assert DecodesKey(invalid, decode, m, dataShards, totalShards);
    }

    method InvertRows(valid: seq<nat>, ghost invalid: Key) returns (decode: Grid)
      requires 0 < dataShards && IsCodingMatrix(m, dataShards, totalShards)
      requires |valid| == dataShards && dataShards + |invalid| <= totalShards
      requires valid == Complement(invalid, dataShards + |invalid|)
      ensures AreInverse(Select(m, dataShards, valid), decode, dataShards)
    {
      hide IsCodingMatrix, Regular, Complement, Product, Identity, Apply;
      ComplementDistinct(invalid, dataShards + |invalid|);
      CodingSelection(m, dataShards, totalShards, valid);
      ghost var sub := Select(m, dataShards, valid);
      var subMatrix := new Row[dataShards];
      for row := 0 to dataShards
        invariant forall i | 0 <= i < row :: subMatrix[i] == sub[i]
      {
        subMatrix[row] := m[valid[row]];
      }
      assert subMatrix[..] == sub;
      hide Select;
      var r;
      ghost var kernel;
      r, kernel := Invert(subMatrix, dataShards);
      if r.Err? {
        RegularNotSingular(sub, kernel);
        assert false;
      }
      decode := r.value[..];
    }

    // ---------- Encode and Verify ----------

    method Encode(shards: array<Shard>) returns (r: Outcome<()>)
      requires Valid()
      modifies shards
      ensures r == ShapeVerdict(old(shards[..]), totalShards, false)
      ensures r.Err? ==> shards[..] == old(shards[..])
      ensures r.Ok? ==> Encoded(old(shards[..]), shards[..], m, dataShards)
    {
      hide Node.Valid, Regular, Select, Combine, Product;
      if shards.Length != totalShards {
        return Err(TooFewShards);
      }
      var check := CheckShards(shards, false);
      if check.Err? {
        return Err(check.error);
      }
      var size := check.value;
      ghost var before := shards[..];
      assert forall i | 0 <= i < totalShards :: |before[i]| == size;
      ghost var data := before[..dataShards];
      Recreate(shards, seq(parityShards, j requires 0 <= j < parityShards => dataShards + j), m[dataShards..],
               shards[..dataShards]);
      forall i | 0 <= i < totalShards ensures shards[i] == Combine(m[i], data, size, dataShards) {
        if i < dataShards {
          UnitRow(m[i], data, size, dataShards, i);
        } else {
          assert m[dataShards..][i - dataShards] == m[i];
        }
      }
      return Ok(());
    }

    method Verify(shards: array<Shard>) returns (r: Outcome<bool>)
      requires Valid()
      ensures r.Ok? <==> ShapeVerdict(shards[..], totalShards, false).Ok?
      ensures r.Err? ==> r.error == ShapeVerdict(shards[..], totalShards, false).error
      ensures r.Ok? ==> (r.value <==> Encoded(shards[..], shards[..], m, dataShards))
    {
      hide Node.Valid, Regular, Select, Combine;
      if shards.Length != totalShards {
        return Err(TooFewShards);
      }
      var check := CheckShards(shards, false);
      if check.Err? {
        return Err(check.error);
      }
      var size := check.value;
      assert forall i | 0 <= i < totalShards :: |shards[..][i]| == size;
      var ok := CheckParity(shards, size);
      return Ok(ok);
    }

    // checkSomeShards
    method CheckParity(shards: array<Shard>, size: nat) returns (ok: bool)
      requires 0 < dataShards && 0 < parityShards && totalShards == dataShards + parityShards == shards.Length
      requires IsCodingMatrix(m, dataShards, totalShards) && perRound > 0
      requires forall i | 0 <= i < totalShards :: |shards[..][i]| == size
      ensures ok <==> forall i | 0 <= i < totalShards ::
        shards[..][i] == Combine(m[i], shards[..][..dataShards], size, dataShards)
    {
      hide IsCodingMatrix, Combine, Product;
      ghost var data := shards[..dataShards];
      assert shards[..][..dataShards] == data;
      CodingShape(m, dataShards, totalShards);
      var outputs := new Shard[parityShards](_ => Zeros(size));
      CodeSomeShards(m[dataShards..], shards[..dataShards], outputs, perRound);
      ParityMeans(m, dataShards, totalShards, shards[..], outputs[..], size);
      ok := true;
      for i := 0 to parityShards
        invariant forall j | 0 <= j < i :: outputs[j] == shards[dataShards + j]
      {
        if outputs[i] != shards[dataShards + i] {
          assert outputs[..][i] != shards[..][dataShards..][i];
          return false;
        }
      }
      assert outputs[..] == shards[..][dataShards..];
    }

    // Computes the shards listed in idx from the rows given for them.
    method Recreate(shards: array<Shard>, idx: seq<nat>, rows: seq<Row>, inputs: seq<Shard>)
      requires perRound > 0 && inputs != [] && IsGrid(inputs, |inputs|, |inputs[0]|)
      requires |idx| == |rows| && Distinct(idx) && forall j | 0 <= j < |idx| :: idx[j] < shards.Length
      requires forall j | 0 <= j < |rows| :: |rows[j]| == |inputs|
      modifies shards
      ensures forall j | 0 <= j < |idx| :: shards[idx[j]] == Combine(rows[j], inputs, |inputs[0]|, |inputs|)
      ensures forall i | 0 <= i < shards.Length && i !in idx :: shards[i] == old(shards[i])
    {
      hide Combine;
      var outputs := new Shard[|idx|](_ => Zeros(|inputs[0]|));
      CodeSomeShards(rows, inputs, outputs, perRound);
      assert outputs[..] == Product(rows, inputs, |inputs[0]|);
      for j := 0 to |idx|
        invariant outputs[..] == Product(rows, inputs, |inputs[0]|)
        invariant forall k | 0 <= k < j :: shards[idx[k]] == Combine(rows[k], inputs, |inputs[0]|, |inputs|)
        invariant forall i | 0 <= i < shards.Length && i !in idx :: shards[i] == old(shards[i])
      {
        assert outputs[j] == outputs[..][j];
        shards[idx[j]] := outputs[j];
      }
    }

    // ---------- Reconstruct ----------

    method ListMissing(shards: array<Shard>, lo: nat, hi: nat) returns (idx: seq<nat>)
      requires lo <= hi <= shards.Length
      ensures idx == Missing(shards[..], lo, hi)
    {
      idx := [];
      for i := lo to hi
        invariant idx == Missing(shards[..], lo, i)
      {
        if |shards[i]| == 0 {
          idx := idx + [i];
        }
      }
    }

    // data stands for any data the shards present agree with.
    method Reconstruct(shards: array<Shard>, dataOnly: bool, ghost data: Grid) returns (r: Outcome<()>)
      requires Valid() && shards !in tree.root.Repr
      modifies shards, tree.root.Repr
      ensures Valid() && fresh(tree.root.Repr - old(tree.root.Repr))
      ensures r == Verdict(old(shards[..]), dataShards, totalShards, dataOnly)
      ensures r == Ok(()) <==> Suffices(old(shards[..]), dataShards, totalShards)
      ensures r.Err? ==> shards[..] == old(shards[..])
      ensures forall i | 0 <= i < shards.Length && (old(shards[..])[i] != [] || (dataOnly && i >= dataShards)) ::
        shards[i] == old(shards[..])[i]
      ensures r.Ok? && Agrees(old(shards[..]), m, dataShards, data, SizeOf(old(shards[..]))) ==>
        forall i | 0 <= i < (if dataOnly then dataShards else totalShards) ::
          shards[i] == Combine(m[i], data, SizeOf(old(shards[..])), dataShards)
    {
      hide Node.Valid, Regular, Select, Combine, Product, Present, IsKey, Complement, Agrees, CacheSound, Suffices,
           IsBuilt;
      assert Verdict(shards[..], dataShards, totalShards, dataOnly) == Ok(())
        <==> Suffices(shards[..], dataShards, totalShards) by {
        VerdictExactly(shards[..], dataShards, totalShards, dataOnly);
      }
      if shards.Length != totalShards {
        return Err(TooFewShards);
      }
      var check := CheckShards(shards, true);
      if check.Err? {
        return Err(check.error);
      }
      var size := check.value;
      var numberPresent, dataPresent := CountPresent(shards, dataShards);
      AllPresent(shards[..], totalShards);
      AllPresent(shards[..], dataShards);
      if numberPresent == totalShards || (dataOnly && dataPresent == dataShards) {
        if Agrees(shards[..], m, dataShards, data, size) {
          forall i | 0 <= i < (if dataOnly then dataShards else totalShards)
            ensures IsGrid(data, dataShards, size) && shards[i] == Combine(m[i], data, size, dataShards)
          {
            PresentShardAgrees(shards[..], m, dataShards, data, size, i);
          }
        }
        return Ok(());
      }
      if numberPresent < dataShards {
        return Err(TooFewShards);
      }
      ghost var before := shards[..];
      RebuildData(shards, data);
      ghost var middle := shards[..];
      if !dataOnly {
        RebuildParity(shards, data, size);
      }
      if Agrees(before, m, dataShards, data, size) {
        AgreesShape(before, m, dataShards, data, size);
        forall i | 0 <= i < (if dataOnly then dataShards else totalShards)
          ensures shards[i] == Combine(m[i], data, size, dataShards)
        {
          if i < dataShards {
            UnitRow(m[i], data, size, dataShards, i);
            assert middle[i] == middle[..dataShards][i] == data[i];
          } else if before[i] != [] {
            PresentShardAgrees(before, m, dataShards, data, size, i);
          }
        }
      }
      return Ok(());
    }

    // Decodes the missing data shards.
    method RebuildData(shards: array<Shard>, ghost data: Grid)
      requires Valid() && shards.Length == totalShards && shards !in tree.root.Repr
      requires Consistent(shards[..], true) && dataShards <= Present(shards[..], totalShards)
      modifies shards, tree.root.Repr
      ensures Valid() && fresh(tree.root.Repr - old(tree.root.Repr))
      ensures forall i | 0 <= i < dataShards :: |shards[i]| == SizeOf(old(shards[..]))
      ensures forall i | 0 <= i < totalShards && (i >= dataShards || old(shards[..])[i] != []) ::
        shards[i] == old(shards[..])[i]
      ensures Agrees(old(shards[..]), m, dataShards, data, SizeOf(old(shards[..]))) ==> shards[..dataShards] == data
    {
      hide Node.Valid, Tree.Valid, IsCodingMatrix, AreInverse, Select, Combine, Present, IsKey, Complement, Missing;
      hide Agrees, CacheSound;
      CodingShape(m, dataShards, totalShards);
      ghost var size := SizeOf(shards[..]);
      ghost var before := shards[..];
      var valid, invalid := ScanShards(shards);
      ScannedFacts(before, valid, invalid, dataShards + |invalid|);
      var decode := DecodeMatrix(valid, invalid);
      InverseShape(Select(m, dataShards, valid), decode, dataShards);
      assert shards[..] == before;
      ghost var sub := RowsAt(before, valid);
      DecodeData(shards, valid, decode, size);
      if Agrees(before, m, dataShards, data, size) {
        AgreesShape(before, m, dataShards, data, size);
        forall i | 0 <= i < dataShards ensures shards[i] == data[i] {
          PresentShardsDecode(before, m, dataShards, valid, decode, data, size, sub, i);
        }
      }
    }

    // The missing data shards, decoded from the valid rows.
    method DecodeData(shards: array<Shard>, valid: seq<nat>, decode: Grid, ghost size: nat)
      requires perRound > 0 && 0 < dataShards == |valid| && dataShards <= shards.Length
      requires IsGrid(decode, dataShards, dataShards)
      requires forall i | 0 <= i < |valid| :: valid[i] < shards.Length && |shards[valid[i]]| == size
      modifies shards
      ensures forall i | 0 <= i < dataShards ::
        var before := old(shards[..]);
        shards[i] == if before[i] == [] then Combine(decode[i], RowsAt(before, valid), size, dataShards) else before[i]
      ensures forall i | dataShards <= i < shards.Length :: shards[i] == old(shards[..])[i]
    {
      hide Combine, Missing;
      ghost var before := shards[..];
      var sub := RowsAt(shards[..], valid);
      var idx := ListMissing(shards, 0, dataShards);
      MissingLists(before, 0, dataShards);
      var rows := seq(|idx|, j requires 0 <= j < |idx| && idx[j] < |decode| => decode[idx[j]]);
      Recreate(shards, idx, rows, sub);
      RowsRecreated(before, shards[..], idx, decode, sub, size, dataShards);
    }

    // Encodes the missing parity shards again.
    method RebuildParity(shards: array<Shard>, ghost data: Grid, ghost size: nat)
      requires Valid() && shards.Length == totalShards
      requires size > 0 && forall i | 0 <= i < dataShards :: |shards[i]| == size
      modifies shards
      ensures forall i | 0 <= i < totalShards && old(shards[..])[i] != [] :: shards[i] == old(shards[..])[i]
      ensures forall i | dataShards <= i < totalShards && old(shards[..])[i] == [] ::
        shards[i] == Combine(m[i], old(shards[..dataShards]), size, dataShards)
    {
      hide Node.Valid, Regular, Select, Combine, Missing, CacheSound;
      ghost var before := shards[..];
      var idx := ListMissing(shards, dataShards, totalShards);
      MissingLists(before, dataShards, totalShards);
      Recreate(shards, idx, seq(|idx|, j requires 0 <= j < |idx| && idx[j] < totalShards => m[idx[j]]),
               shards[..dataShards]);
      forall i | dataShards <= i < totalShards && before[i] == []
        ensures shards[i] == Combine(m[i], before[..dataShards], size, dataShards)
      {
        var j :| 0 <= j < |idx| && idx[j] == i;
        assert shards[idx[j]] == Combine(m[i], before[..dataShards], size, dataShards);
      }
    }
  }

  function RowsAt(shards: seq<Shard>, valid: seq<nat>): (r: seq<Shard>)
    requires forall i | 0 <= i < |valid| :: valid[i] < |shards|
    ensures |r| == |valid| && forall i | 0 <= i < |r| :: r[i] == shards[valid[i]]
  {
    seq(|valid|, i requires 0 <= i < |valid| && valid[i] < |shards| => shards[valid[i]])
  }

  // Data shard by data shard, what was recreated and what was there.
  lemma RowsRecreated(before: seq<Shard>, after: seq<Shard>, idx: seq<nat>, decode: Grid, sub: Grid, size: nat, k: nat)
    requires |after| == |before| && k <= |before| && IsGrid(decode, k, k) && IsGrid(sub, k, size)
    requires forall j | 0 <= j < |idx| :: idx[j] < k && after[idx[j]] == Combine(decode[idx[j]], sub, size, k)
    requires forall i | 0 <= i < |before| && i !in idx :: after[i] == before[i]
    ensures forall i | 0 <= i < k :: after[i] == if i in idx then Combine(decode[i], sub, size, k) else before[i]
  {
    hide Combine;
  }

  lemma {:induction false} AllPresent(shards: seq<Shard>, n: nat)
    requires n <= |shards|
    ensures Present(shards, n) <= n && (Present(shards, n) == n <==> forall i | 0 <= i < n :: shards[i] != [])
  {
    if n != 0 {
      AllPresent(shards, n - 1);
    }
  }

  lemma ScannedFacts(shards: seq<Shard>, valid: seq<nat>, invalid: Key, row: nat)
    requires Scanned(shards, valid, invalid, row)
    ensures row <= |shards| && IsKey(invalid, 0, |shards|) && valid == Complement(invalid, row)
    ensures forall i | 0 <= i < |valid| :: valid[i] < |shards| && shards[valid[i]] != []
  {
    KeyWiden(invalid, 0, row, |shards|);
  }

  lemma AgreesShape(shards: seq<Shard>, m: Grid, k: nat, data: Grid, size: nat)
    requires IsGrid(m, |shards|, k) && Agrees(shards, m, k, data, size)
    ensures size > 0 && IsGrid(data, k, size)
  {
  }

  lemma PresentShardAgrees(shards: seq<Shard>, m: Grid, k: nat, data: Grid, size: nat, i: nat)
    requires IsGrid(m, |shards|, k) && Agrees(shards, m, k, data, size) && i < |shards| && shards[i] != []
    ensures IsGrid(data, k, size) && shards[i] == Combine(m[i], data, size, k)
  {
  }

  // Decoding the shards present gives shard i of the data, whether it was present or not.
  lemma PresentShardsDecode(shards: seq<Shard>, m: Grid, k: nat, valid: seq<nat>, decode: Grid, data: Grid, size: nat,
                            sub: seq<Shard>, i: nat)
    requires IsGrid(m, |shards|, k) && Agrees(shards, m, k, data, size) && i < k <= |shards|
    requires m[i] == Unit(k, i)
    requires |valid| == k && (forall j | 0 <= j < k :: valid[j] < |shards| && shards[valid[j]] != [])
    requires |sub| == k && forall j | 0 <= j < k :: sub[j] == shards[valid[j]]
    requires AreInverse(Select(m, k, valid), decode, k)
    ensures IsGrid(data, k, size) && IsGrid(sub, k, size)
    ensures Combine(decode[i], sub, size, k) == data[i] == Combine(m[i], data, size, k)
    ensures shards[i] != [] ==> shards[i] == data[i]
  {
    hide Combine, AreInverse;
    assert IsGrid(decode, k, k) by {
      InverseShape(Select(m, k, valid), decode, k);
    }
    DecodeRecovers(m, k, |shards|, valid, decode, data, size);
    assert sub == Select(Product(m, data, size), size, valid);
    assert Product(decode, sub, size)[i] == Combine(decode[i], sub, size, k);
    UnitRow(m[i], data, size, k, i);
  }

  lemma InverseShape(a: Grid, b: Grid, n: nat)
    requires AreInverse(a, b, n)
    ensures IsGrid(b, n, n)
  {
  }

  // What reconstruct answers, from the lengths of the shards alone.
  ghost function Verdict(shards: seq<Shard>, k: nat, total: nat, dataOnly: bool): Outcome<()>
    requires k <= total
  {
    var shape := ShapeVerdict(shards, total, true);
    if shape.Err? then shape
    else if Present(shards, total) == total || (dataOnly && Present(shards, k) == k) then shape
    else if Present(shards, total) < k then Err(TooFewShards)
    else shape
  }

  // after is before with its parity computed from its data shards.
  ghost predicate Encoded(before: seq<Shard>, after: seq<Shard>, m: Grid, k: nat)
    requires k <= |before| == |after| && IsGrid(m, |after|, k)
    requires Consistent(before, false)
  {
    forall i | 0 <= i < |after| :: after[i] == Combine(m[i], before[..k], SizeOf(before), k)
  }

  // The coded rows match exactly when all shards are what the data encodes to.
  lemma ParityMeans(m: Grid, k: nat, total: nat, shards: seq<Shard>, outputs: seq<Shard>, size: nat)
    requires 0 < k <= total == |shards| && IsCodingMatrix(m, k, total) && IsGrid(shards, total, size)
    requires outputs == Product(m[k..], shards[..k], size)
    ensures outputs == shards[k..] <==> forall i | 0 <= i < total :: shards[i] == Combine(m[i], shards[..k], size, k)
  {
    hide Regular, Select, Combine;
    var data := shards[..k];
    forall i | 0 <= i < k ensures shards[i] == Combine(m[i], data, size, k) {
      UnitRow(m[i], data, size, k, i);
    }
    forall i | k <= i < total ensures outputs[i - k] == Combine(m[i], data, size, k) {
      assert m[k..][i - k] == m[i];
    }
    if outputs == shards[k..] {
      forall i | k <= i < total ensures shards[i] == Combine(m[i], data, size, k) {
        assert shards[k..][i - k] == outputs[i - k];
      }
    }
  }

  lemma UnitRow(u: Row, data: Grid, size: nat, k: nat, i: nat)
    requires i < k && u == Unit(k, i) && IsGrid(data, k, size)
    ensures Combine(u, data, size, k) == data[i]
  {
    hide Combine;
    ProductIdentity(data, k, size);
    assert Product(Identity(k), data, size)[i] == Combine(Identity(k)[i], data, size, k);
  }

  lemma EmptyScan(shards: seq<Shard>)
    ensures Scanned(shards, [], [], 0)
  {
  }

  lemma ScanEnds(shards: seq<Shard>, valid: seq<nat>, invalid: Key, row: nat)
    requires Scanned(shards, valid, invalid, row)
    ensures |valid| + |invalid| == row && |valid| == Present(shards, row)
  {
  }

  // With nothing missing the data shards decode themselves.
  lemma EmptyKeyDecodes(m: Grid, k: nat, total: nat)
    requires IsCodingMatrix(m, k, total)
    ensures IsGrid(m, total, k) && DecodesKey([], Identity(k), m, k, total)
  {
    hide Product, Regular, Select, Complement;
    ComplementOfNone(k);
    assert Complement([], k + 0) == Upto(k);
    SelectUpto(m, k, k);
    assert m[..k] == Identity(k);
    ProductIdentity(Identity(k), k, k);
  }
}
