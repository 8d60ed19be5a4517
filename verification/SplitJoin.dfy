// Split and Join of the Leopard codecs: a buffer cut into shards of one length divisible by
// 64, reusing its spare capacity, and the shards written out again.
module SplitJoin {

  import opened Wrappers
  import opened Galois
  import opened Shards

  datatype SplitError = ShortData | TooFewShards | ReconstructRequired | WriteFailed

  // ---------- Lengths ----------

  // Bytes per data shard, rounded up to a multiple of 64.
  function PerShard(dataLen: nat, dataShards: nat): (r: nat)
    requires dataShards > 0
  {
    ((dataLen + dataShards - 1) / dataShards + 63) / 64 * 64
  }

  lemma CeilDivide(a: nat, d: nat)
    requires d > 0
    ensures (a + d - 1) / d * d >= a && ((a + d - 1) / d) * d < a + d
  {
    var q, r := (a + d - 1) / d, (a + d - 1) % d;
    assert a + d - 1 == q * d + r;
  }

  // Whoever has room for a items has as many as the quotient rounded up.
  lemma CeilLeast(a: nat, d: nat, q: nat)
    requires d > 0 && q * d >= a
    ensures q >= (a + d - 1) / d
  {
    var c := (a + d - 1) / d;
    CeilDivide(a, d);
    if q < c {
      assert (q + 1) * d == q * d + d;
      MulGrows(q + 1, c, d);
    }
  }

  lemma RoundedUp(c: nat, q: nat)
    ensures (c + 63) / 64 * 64 % 64 == 0 && (c + 63) / 64 * 64 >= c
    ensures q % 64 == 0 && q >= c ==> q >= (c + 63) / 64 * 64
  {
  }

  // The least multiple of 64 that gives all the data room.
  lemma PerShardLeast(dataLen: nat, dataShards: nat)
    requires dataShards > 0
    ensures PerShard(dataLen, dataShards) % 64 == 0
    ensures PerShard(dataLen, dataShards) * dataShards >= dataLen
    ensures forall q: nat | q % 64 == 0 && q * dataShards >= dataLen :: q >= PerShard(dataLen, dataShards)
  {
    var p := PerShard(dataLen, dataShards);
    CeilDivide(dataLen, dataShards);
    RoundedUp((dataLen + dataShards - 1) / dataShards, 0);
    MulGrows((dataLen + dataShards - 1) / dataShards, p, dataShards);
    forall q: nat | q % 64 == 0 && q * dataShards >= dataLen ensures q >= p {
      CeilLeast(dataLen, dataShards, q);
      RoundedUp((dataLen + dataShards - 1) / dataShards, q);
    }
  }

  lemma MulGrows(a: nat, b: nat, c: nat)
    requires a <= b
    ensures a * c <= b * c
  {
  }

  // ---------- Rows of a buffer ----------

  function Row(whole: seq<Byte>, j: nat, per: nat): (r: seq<Byte>) {
    if (j + 1) * per <= |whole| then whole[j * per..(j + 1) * per] else []
  }

  function Concat(rows: seq<Shard>): seq<Byte> {
    if rows == [] then [] else Concat(rows[..|rows| - 1]) + rows[|rows| - 1]
  }

  lemma {:induction false} ConcatRows(rows: seq<Shard>, whole: seq<Byte>, per: nat, n: nat)
    requires n == |rows| && n * per <= |whole| && forall j: nat | j < n :: rows[j] == Row(whole, j, per)
    ensures Concat(rows) == whole[..n * per]
  {
    hide Row;
    if n > 0 {
      RowInside(n - 1, n, per);
      ConcatRows(rows[..n - 1], whole, per, n - 1);
      RowIs(whole, n - 1, per);
      JoinRow(whole, (n - 1) * per, per);
    }
  }

  lemma RowIs(whole: seq<Byte>, j: nat, per: nat)
    requires j * per + per <= |whole|
    ensures Row(whole, j, per) == whole[j * per..j * per + per]
  {
    RowInside(j, j + 1, per);
  }

  lemma JoinRow(whole: seq<Byte>, at: nat, per: nat)
    requires at + per <= |whole|
    ensures whole[..at] + whole[at..at + per] == whole[..at + per]
  {
  }

  // The data followed by zeros, all the shards have room for.
  function Filled(data: seq<Byte>, total: nat): (r: seq<Byte>)
    requires |data| <= total
    ensures |r| == total
  {
    data + Clear(total - |data|)
  }

  lemma RowInside(j: nat, n: nat, per: nat)
    requires j < n
    ensures (j + 1) * per <= n * per && (j + 1) * per == j * per + per
  {
    MulGrows(j + 1, n, per);
  }

  // A row of the data and zeros is what is left of the data there, and zeros.
  lemma RowOfFilled(data: seq<Byte>, n: nat, per: nat, j: nat)
    requires j < n && |data| <= n * per
    ensures |Row(Filled(data, n * per), j, per)| == per
    ensures j * per >= |data| ==> Row(Filled(data, n * per), j, per) == Clear(per)
    ensures j * per + per <= |data| ==> Row(Filled(data, n * per), j, per) == data[j * per..j * per + per]
    ensures j * per <= |data| < j * per + per ==>
      Row(Filled(data, n * per), j, per) == data[j * per..] + Clear(j * per + per - |data|)
  {
    RowInside(j, n, per);
  }

  // ---------- Split ----------

  // Where row j starts.
  function Offset(j: nat, per: nat): nat {
    j * per
  }

  lemma RowFrom(data: seq<Byte>, n: nat, per: nat, j: nat, need: nat)
    requires j < n && |data| <= need == Offset(n, per)
    ensures Offset(j + 1, per) == Offset(j, per) + per
    ensures var at := Offset(j, per);
            at < |data| ==>
              Row(Filled(data, need), j, per)
              == if at + per <= |data| then data[at..at + per] else data[at..] + Clear(at + per - |data|)
  {
    RowInside(j, n, per);
    RowOfFilled(data, n, per, j);
  }

  lemma RowsBehind(data: seq<Byte>, n: nat, per: nat, j: nat, i: nat, need: nat)
    requires j <= i < n && |data| <= need == Offset(n, per) && Offset(j, per) >= |data|
    ensures Row(Filled(data, need), i, per) == Clear(per)
  {
    MulGrows(j, i, per);
    RowOfFilled(data, n, per, i);
  }

  // The buffers that do not fit in data, with the rest of the data copied into them.
  method Padding(rest: seq<Byte>, from: nat, count: nat, per: nat, ghost data: seq<Byte>, ghost need: nat)
    returns (padding: seq<Shard>)
    requires per > 0 && |data| <= need == Offset(from + count, per)
    requires rest == if Offset(from, per) <= |data| then data[Offset(from, per)..] else []
    ensures |padding| == count && forall j: nat | j < count :: padding[j] == Row(Filled(data, need), from + j, per)
  {
    hide Row, Filled, Clear, Offset;
    padding := seq(count, _ => Clear(per));
    var copyFrom := rest;
    var i := 0;
    ghost var at := Offset(from, per);
    while i < count && |copyFrom| != 0
      invariant i <= count && at == Offset(from + i, per)
      invariant copyFrom == if at <= |data| then data[at..] else []
      invariant |padding| == count && forall j: nat | j < i :: padding[j] == Row(Filled(data, need), from + j, per)
      invariant forall j: nat | i <= j < count :: padding[j] == Clear(per)
      decreases count - i
    {
      var copied := if |copyFrom| < per then |copyFrom| else per;
      RowFrom(data, from + count, per, from + i, need);
      CopiedRow(data, at, per, copyFrom, copied);
      padding := padding[i := copyFrom[..copied] + Clear(per)[copied..]];
      copyFrom := copyFrom[copied..];
      i := i + 1;
      at := at + per;
    }
    forall j: nat | i <= j < count ensures padding[j] == Row(Filled(data, need), from + j, per) {
      RowsBehind(data, from + count, per, from + i, from + j, need);
    }
  }

  lemma CopiedRow(data: seq<Byte>, at: nat, per: nat, copyFrom: seq<Byte>, copied: nat)
    requires at < |data| && copyFrom == data[at..] && copied == if |copyFrom| < per then |copyFrom| else per
    ensures copyFrom[copied..] == if at + per <= |data| then data[at + per..] else []
    ensures copyFrom[..copied] + Clear(per)[copied..]
         == if at + per <= |data| then data[at..at + per] else data[at..] + Clear(at + per - |data|)
  {
  }

  // The spare capacity, up to needTotal, is made part of the data and cleared.
  method Extend(data: array<Byte>, dataLen: nat, needTotal: nat) returns (whole: seq<Byte>)
    requires dataLen <= data.Length && dataLen <= needTotal
    modifies data
    ensures data[..dataLen] == old(data[..dataLen]) && dataLen <= |whole| <= needTotal
    ensures whole[..dataLen] == data[..dataLen] && forall j | dataLen <= j < |whole| :: whole[j] == 0
    ensures |whole| == if data.Length > needTotal then needTotal else data.Length
    ensures forall j | 0 <= j < data.Length :: data[j] == if dataLen <= j < |whole| then 0 else old(data[j])
  {
    var extended := dataLen;
    if data.Length > dataLen {
      extended := if data.Length > needTotal then needTotal else data.Length;
      for i := dataLen to extended
        invariant forall j | 0 <= j < dataLen :: data[j] == old(data[j])
        invariant forall j | dataLen <= j < i :: data[j] == 0
        invariant forall j | i <= j < data.Length :: data[j] == old(data[j])
      {
        data[i] := 0;
      }
    }
    whole := data[..extended];
  }

  // The shards that lie in the buffer.
  method Slices(whole: seq<Byte>, fullShards: nat, per: nat, ghost data: seq<Byte>, ghost need: nat)
    returns (dst: seq<Shard>)
    requires |data| <= |whole| <= need && whole[..|data|] == data && forall i | |data| <= i < |whole| :: whole[i] == 0
    requires Offset(fullShards, per) <= |whole|
    ensures |dst| == fullShards && forall j: nat | j < fullShards :: dst[j] == Row(Filled(data, need), j, per)
  {
    hide Row, Filled, Offset;
    dst := [];
    for i := 0 to fullShards
      invariant |dst| == i && forall j: nat | j < i :: dst[j] == Row(Filled(data, need), j, per)
    {
      RowInside(i, fullShards, per);
      OffsetIs(fullShards, per);
      ExtendedRow(whole, data, need, i, per);
      dst := dst + [whole[i * per..(i + 1) * per]];
    }
  }

  // data is the first dataLen bytes of a buffer whose length is its capacity.
  method Split(data: array<Byte>, dataLen: nat, dataShards: nat, totalShards: nat) returns (r: Result<seq<Shard>,
               SplitError>)
    requires 0 < dataShards <= totalShards && dataLen <= data.Length
    modifies data
    ensures r.Err? <==> dataLen == 0
    ensures r.Err? ==> r.error == ShortData
    ensures r.Ok? ==> IsSplit(r.value, old(data[..dataLen]), dataShards, totalShards)
    ensures data[..dataLen] == old(data[..dataLen])
    ensures forall j | dataLen <= j < data.Length && data[j] != old(data[j]) ::
      data[j] == 0 && j < totalShards * PerShard(dataLen, dataShards)
  {
    hide Row, Filled, PerShard, IsSplit;
    if dataLen == 0 {
      return Err(ShortData);
    }
    if totalShards == 1 && dataLen % 64 == 0 {
      OneShard(data[..dataLen]);
      return Ok([data[..dataLen]]);
    }
    var perShard := PerShard(dataLen, dataShards);
    Room(dataLen, dataShards, totalShards, perShard);
    var whole := Extend(data, dataLen, totalShards * perShard);
    var dst := CutRows(whole, dataLen, dataShards, totalShards, perShard);
    return Ok(dst);
  }

  lemma Room(dataLen: nat, dataShards: nat, totalShards: nat, per: nat)
    requires 0 < dataShards <= totalShards && per == PerShard(dataLen, dataShards) && dataLen > 0
    ensures per > 0 && dataLen <= totalShards * per
  {
    PerShardLeast(dataLen, dataShards);
    MulGrows(dataShards, totalShards, per);
  }

  // The shards: as many as lie in the extended buffer, and padding for the others.
  method CutRows(whole: seq<Byte>, dataLen: nat, dataShards: nat, total: nat, per: nat) returns (dst: seq<Shard>)
    requires 0 < dataShards <= total && per > 0 && per == PerShard(dataLen, dataShards)
    requires dataLen <= |whole| <= total * per && forall j | dataLen <= j < |whole| :: whole[j] == 0
    ensures IsSplit(dst, whole[..dataLen], dataShards, total)
  {
    hide Row, Filled, PerShard, IsSplit, Offset, Quotient;
    ghost var bytes := whole[..dataLen];
    ghost var need := Offset(total, per);
    OffsetIs(total, per);
    var fullShards := Quotient(|whole|, per);
    FullShards(|whole|, per, total);
    var start := Offset(fullShards, per);
    var rest := if dataLen > start then whole[start..dataLen] else [];
    RestOf(whole, bytes, start, rest);
    var padding := Padding(rest, fullShards, total - fullShards, per, bytes, need);
    dst := Slices(whole, fullShards, per, bytes, need);
    JoinedRows(dst, padding, bytes, dataShards, total, per);
    dst := dst + padding;
  }

  lemma OffsetIs(j: nat, per: nat)
    ensures Offset(j, per) == j * per
  {
  }

  // How many rows of per bytes there are in n bytes.
  function Quotient(n: nat, per: nat): nat
    requires per > 0
  {
    n / per
  }

  lemma JoinedRows(slices: seq<Shard>, padding: seq<Shard>, data: seq<Byte>, dataShards: nat, total: nat, per: nat)
    requires 0 < dataShards <= total == |slices| + |padding| && per == PerShard(|data|, dataShards)
    requires |data| <= Offset(total, per)
    requires forall j: nat | j < |slices| :: slices[j] == Row(Filled(data, Offset(total, per)), j, per)
    requires forall j: nat | j < |padding| :: padding[j] == Row(Filled(data, Offset(total, per)), |slices| + j, per)
    ensures IsSplit(slices + padding, data, dataShards, total)
  {
    hide Row, Filled, PerShard, IsSplit, Offset;
    OffsetIs(total, per);
    var dst := slices + padding;
    forall j: nat | j < total ensures dst[j] == Row(Filled(data, total * per), j, per) {
      if j >= |slices| {
        var i: nat := j - |slices|;
        assert dst[j] == padding[i] == Row(Filled(data, total * per), |slices| + i, per);
      }
    }
    RowsAreSplit(dst, data, dataShards, total);
  }

  lemma RestOf(buffer: seq<Byte>, data: seq<Byte>, start: nat, rest: seq<Byte>)
    requires |data| <= |buffer| && buffer[..|data|] == data
    requires rest == if |data| > start then buffer[start..|data|] else []
    ensures rest == if start <= |data| then data[start..] else []
  {
  }

  lemma FullShards(extended: nat, per: nat, total: nat)
    requires per > 0 && extended <= Offset(total, per)
    ensures Quotient(extended, per) <= total && Offset(Quotient(extended, per), per) <= extended
  {
    var q := extended / per;
    assert q * per <= extended;
    if q >= total + 1 {
      MulGrows(total + 1, q, per);
    }
  }

  // Rows inside the extended buffer are rows of the data and zeros.
  lemma ExtendedRow(whole: seq<Byte>, data: seq<Byte>, need: nat, j: nat, per: nat)
    requires |data| <= |whole| <= need && whole[..|data|] == data && forall i | |data| <= i < |whole| :: whole[i] == 0
    requires (j + 1) * per <= |whole| && j * per <= (j + 1) * per
    ensures whole[j * per..(j + 1) * per] == Row(Filled(data, need), j, per)
  {
    assert Filled(data, need)[..|whole|] == whole;
    var f := Filled(data, need);
    assert f[j * per..(j + 1) * per] == f[..|whole|][j * per..(j + 1) * per];
  }

  // Shards of one length divisible by 64, the least that will do; the data shards hold the
  // data and zeros after it, the parity shards zeros.
  ghost predicate IsSplit(shards: seq<Shard>, data: seq<Byte>, dataShards: nat, totalShards: nat)
    requires 0 < dataShards <= totalShards
  {
    var per := PerShard(|data|, dataShards);
    && |shards| == totalShards && Uniform(shards, per) && |data| <= dataShards * per
    && Concat(shards[..dataShards]) == Filled(data, dataShards * per)
    && forall j | dataShards <= j < totalShards :: shards[j] == Clear(per)
  }

  lemma OneShard(data: seq<Byte>)
    requires |data| > 0 && |data| % 64 == 0
    ensures IsSplit([data], data, 1, 1)
  {
    assert PerShard(|data|, 1) == |data|;
    assert Concat([data]) == Concat([]) + data;
    assert Filled(data, |data|) == data;
  }

  lemma RowsAreSplit(shards: seq<Shard>, data: seq<Byte>, dataShards: nat, totalShards: nat)
    requires 0 < dataShards <= totalShards == |shards| && |data| <= totalShards * PerShard(|data|, dataShards)
    requires var per := PerShard(|data|, dataShards);
             forall j: nat | j < totalShards :: shards[j] == Row(Filled(data, totalShards * per), j, per)
    ensures IsSplit(shards, data, dataShards, totalShards)
  {
    hide Row, Filled;
    PerShardLeast(|data|, dataShards);
    var per := PerShard(|data|, dataShards);
    var whole := Filled(data, totalShards * per);
    forall j: nat | j < totalShards ensures |shards[j]| == per && (j >= dataShards ==> shards[j] == Clear(per)) {
      RowOfFilled(data, totalShards, per, j);
      if j >= dataShards {
        MulGrows(dataShards, j, per);
      }
    }
    MulGrows(dataShards, totalShards, per);
    ConcatRows(shards[..dataShards], whole, per, dataShards);
    FilledPrefix(data, dataShards * per, totalShards * per);
  }

  lemma FilledPrefix(data: seq<Byte>, a: nat, b: nat)
    requires |data| <= a <= b
    ensures Filled(data, b)[..a] == Filled(data, a)
  {
  }

  // ---------- Join ----------

  // A shard slice, which may be nil.
  datatype Slot = Nil | Bytes(value: Shard)

  // An io.Writer that takes room bytes and then fails.
  class Writer {
    var written: seq<Byte>
    var room: nat

    constructor (room: nat)
      ensures written == [] && this.room == room
    {
      written := [];
      this.room := room;
    }

    method Write(p: seq<Byte>) returns (n: nat, ok: bool)
      modifies this
      ensures n == (if |p| <= old(room) then |p| else old(room)) && (ok <==> n == |p|)
      ensures written == old(written) + p[..n] && room == old(room) - n
    {
      n := if |p| <= room then |p| else room;
      ok := n == |p|;
      written := written + p[..n];
      room := room - n;
    }
  }

  function Length(s: Slot): nat {
    if s.Nil? then 0 else |s.value|
  }

  function Content(s: Slot): seq<Byte> {
    if s.Nil? then [] else s.value
  }

  // All the bytes of shards, nil ones adding none.
  function Joined(shards: seq<Slot>): seq<Byte> {
    if shards == [] then [] else Content(shards[0]) + Joined(shards[1..])
  }

  // Whether a nil shard comes before outSize bytes have been seen.
  ghost predicate NilTooEarly(shards: seq<Slot>, outSize: int) {
    exists i | 0 <= i < |shards| :: shards[i].Nil? && (i == 0 || |Joined(shards[..i])| < outSize)
  }

  lemma {:induction false} JoinedSplit(shards: seq<Slot>, i: nat)
    requires i <= |shards|
    ensures Joined(shards) == Joined(shards[..i]) + Joined(shards[i..])
  {
    if i > 0 {
      JoinedSplit(shards[1..], i - 1);
      assert shards[1..][..i - 1] == shards[..i][1..] && shards[1..][i - 1..] == shards[i..];
    } else {
      assert shards[0..] == shards && shards[..0] == [];
    }
  }

  lemma JoinedGrows(shards: seq<Slot>, i: nat)
    requires i < |shards|
    ensures Joined(shards[..i + 1]) == Joined(shards[..i]) + Content(shards[i])
  {
    var s := shards[..i + 1];
    JoinedSplit(s, i);
    assert s[..i] == shards[..i] && s[i..] == [shards[i]];
    assert Joined([shards[i]]) == Content(shards[i]) + Joined([shards[i]][1..]);
  }

  lemma JoinedMonotonic(shards: seq<Slot>, i: nat, j: nat)
    requires i <= j <= |shards|
    ensures |Joined(shards[..i])| <= |Joined(shards[..j])|
  {
    JoinedSplit(shards[..j], i);
    assert shards[..j][..i] == shards[..i];
  }

  // A negative outSize gets as far as the second loop, and no further, when the first shard is
  // there.
  method Join(dst: Writer, shards: seq<Slot>, dataShards: nat, outSize: int) returns (r: Result<(), SplitError>)
    requires dataShards > 0 && (outSize < 0 ==> |shards| < dataShards || shards[0].Nil?)
    modifies dst
    ensures |shards| < dataShards ==> r == Err(TooFewShards)
    ensures |shards| >= dataShards ==>
      var s := shards[..dataShards];
      && (r == Err(ReconstructRequired) <==> NilTooEarly(s, outSize))
      && (r == Err(ShortData) <==> !NilTooEarly(s, outSize) && |Joined(s)| < outSize)
      && (r == Err(WriteFailed) <==> !NilTooEarly(s, outSize) && old(dst.room) < outSize <= |Joined(s)|)
      && (r.Ok? <==> !NilTooEarly(s, outSize) && outSize <= |Joined(s)| && outSize <= old(dst.room))
      && (r.Ok? ==> dst.written == old(dst.written) + Joined(s)[..outSize])
      && (r == Err(WriteFailed) ==> dst.written == old(dst.written) + Joined(s)[..old(dst.room)])
    ensures r.Err? && r.error != WriteFailed ==> dst.written == old(dst.written)
  {
    if |shards| < dataShards {
      return Err(TooFewShards);
    }
    var s := shards[..dataShards];
    var found := Enough(s, outSize);
    if found.Err? {
      return Err(found.error);
    }
    var ok := WriteOut(dst, s, outSize);
    return if ok then Ok(()) else Err(WriteFailed);
  }

  // The first loop of Join.
  method Enough(s: seq<Slot>, outSize: int) returns (r: Result<(), SplitError>)
    requires s != []
    ensures r == if NilTooEarly(s, outSize) then Err(ReconstructRequired)
                 else if |Joined(s)| < outSize then Err(ShortData)
                 else Ok(())
  {
    var size := 0;
    for i := 0 to |s|
      invariant size == |Joined(s[..i])| && (i > 0 ==> size < outSize)
      invariant forall j | 0 <= j < i :: !s[j].Nil?
    {
      if s[i].Nil? {
        return Err(ReconstructRequired);
      }
      size := size + |s[i].value|;
      JoinedGrows(s, i);
      if size >= outSize {
        JoinedMonotonic(s, i + 1, |s|);
        assert s[..|s|] == s;
        forall j | 0 <= j < |s| && s[j].Nil? ensures j > 0 && |Joined(s[..j])| >= outSize {
          JoinedMonotonic(s, i + 1, j);
        }
        return Ok(());
      }
    }
    assert s[..|s|] == s;
    return Err(ShortData);
  }

  // The second loop of Join.
  method WriteOut(dst: Writer, s: seq<Slot>, outSize: nat) returns (ok: bool)
    requires outSize <= |Joined(s)|
    modifies dst
    ensures ok <==> outSize <= old(dst.room)
    ensures dst.written == old(dst.written) + Joined(s)[..if ok then outSize else old(dst.room)]
  {
    hide Joined, Content;
    ghost var room, all, start := dst.room, Joined(s), dst.written;
    ghost var before: seq<Byte> := [];
    var write := outSize;
    NothingJoined(s);
    for i := 0 to |s|
      invariant before == Joined(s[..i]) && |before| <= outSize && write == outSize - |before|
      invariant |before| <= room && dst.room == room - |before| && dst.written == start + before
    {
      JoinedGrows(s, i);
      JoinedPrefix(s, i + 1);
      var shard := Content(s[i]);
      if write < |shard| {
        var n, wrote := dst.Write(shard[..write]);
        WrittenPart(all, before, shard, write, n);
        return wrote;
      }
      var n, wrote := dst.Write(shard);
      if !wrote {
        WrittenPart(all, before, shard, |shard|, n);
        assert shard[..|shard|] == shard;
        return false;
      }
      assert shard[..n] == shard;
      before := before + shard;
      write := write - n;
    }
    assert s[..|s|] == s && all[..outSize] == all;
    return true;
  }

  lemma NothingJoined(s: seq<Slot>)
    ensures Joined(s[..0]) == []
  {
  }

  lemma JoinedPrefix(s: seq<Slot>, i: nat)
    requires i <= |s|
    ensures |Joined(s[..i])| <= |Joined(s)| && Joined(s)[..|Joined(s[..i])|] == Joined(s[..i])
  {
    JoinedSplit(s, i);
  }

  lemma WrittenPart(all: seq<Byte>, before: seq<Byte>, shard: seq<Byte>, write: nat, n: nat)
    requires |before| + |shard| <= |all| && all[..|before| + |shard|] == before + shard && n <= write <= |shard|
    ensures before + shard[..write][..n] == all[..|before| + n]
  {
    assert all[..|before| + n] == all[..|before| + |shard|][..|before| + n];
  }

  // ---------- Join after Split ----------

  function AsSlots(shards: seq<Shard>): (r: seq<Slot>)
    ensures |r| == |shards|
  {
    seq(|shards|, i requires 0 <= i < |shards| => Bytes(shards[i]))
  }

  lemma {:induction false} JoinedIsConcat(shards: seq<Shard>)
    ensures Joined(AsSlots(shards)) == Concat(shards)
  {
    if shards != [] {
      var n := |shards| - 1;
      JoinedGrows(AsSlots(shards), n);
      assert AsSlots(shards)[..n] == AsSlots(shards[..n]) && AsSlots(shards)[..n + 1] == AsSlots(shards);
      JoinedIsConcat(shards[..n]);
    }
  }

  // The first len(data) bytes of the data shards are the data.
  lemma SplitKeepsData(shards: seq<Shard>, data: seq<Byte>, dataShards: nat, totalShards: nat)
    requires 0 < dataShards <= totalShards && IsSplit(shards, data, dataShards, totalShards)
    ensures !NilTooEarly(AsSlots(shards)[..dataShards], |data|)
    ensures |Joined(AsSlots(shards)[..dataShards])| >= |data|
    ensures Joined(AsSlots(shards)[..dataShards])[..|data|] == data
  {
    assert AsSlots(shards)[..dataShards] == AsSlots(shards[..dataShards]);
    JoinedIsConcat(shards[..dataShards]);
  }

  // Whatever the capacity of the buffer, joining what Split returns writes the data.
  method SplitThenJoin(data: array<Byte>, dataLen: nat, dataShards: nat, totalShards: nat, dst: Writer)
    returns (r: Result<(), SplitError>)
    requires 0 < dataShards <= totalShards && 0 < dataLen <= data.Length && dataLen <= dst.room
    modifies data, dst
    ensures r.Ok? && dst.written == old(dst.written) + old(data[..dataLen])
  {
    hide IsSplit, NilTooEarly, AsSlots, Joined;
    var shards := Split(data, dataLen, dataShards, totalShards);
    SplitKeepsData(shards.value, data[..dataLen], dataShards, totalShards);
    SplitCount(shards.value, data[..dataLen], dataShards, totalShards);
    r := Join(dst, AsSlots(shards.value), dataShards, dataLen);
  }

  lemma SplitCount(shards: seq<Shard>, data: seq<Byte>, dataShards: nat, totalShards: nat)
    requires 0 < dataShards <= totalShards && IsSplit(shards, data, dataShards, totalShards)
    ensures |shards| == totalShards
  {
  }
}
