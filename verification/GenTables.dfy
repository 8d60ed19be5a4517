// gentables.go: the exponent table and the product tables, made from the table of logarithms.
module GenTables {

  import opened BinaryField
  import opened Galois
  import opened LeopardTables

  // The table of logarithms, whose entry for 0 means nothing.
  ghost predicate IsLogTable(logTable: seq<Byte>) {
    |logTable| == 256 && forall a: Byte | a != 0 :: logTable[a] == LogTable(a)
  }

  ghost predicate IsExpTable(expTable: seq<Byte>) {
    |expTable| == 510 && forall k: nat | k < 510 :: expTable[k] == Gf256().Exp(k)
  }

  lemma LogFacts(a: Byte)
    requires a != 0
    ensures LogTable(a) < 255 && Gf256().Exp(LogTable(a)) == a && Gf256().Exp(LogTable(a) + 255) == a
  {
    hide Gf.Exp;
    Gf256Valid();
    Gf256().ExpPeriod(LogTable(a));
  }

  // Every exponent below 510 is the logarithm of its power, or 255 more.
  lemma ExpFacts(k: nat)
    requires k < 510
    ensures 0 < Gf256().Exp(k) < 256
    ensures var log := LogTable(Gf256().Exp(k)); k == log || k == log + 255
  {
    hide Gf.Exp;
    Gf256Valid();
    if k < 255 {
      assert 0 < Gf256().Exp(k) < 256;
    } else {
      Gf256().ExpPeriod(k - 255);
      assert 0 < Gf256().Exp(k - 255) < 256;
    }
  }

  method GenerateExpTable(logTable: seq<Byte>) returns (result: array<Byte>)
    requires IsLogTable(logTable)
    ensures fresh(result) && IsExpTable(result[..])
  {
    hide Gf.Exp, LogTable;
    result := new Byte[510](_ => 0);
    for i := 1 to 256
      invariant forall a: Byte | 0 < a < i ::
        LogTable(a) < 255 && result[LogTable(a)] == a && result[LogTable(a) + 255] == a
    {
      var log: nat := logTable[i];
      LogFacts(i);
      forall a: Byte | 0 < a < i ensures LogTable(a) < 255 && LogTable(a) != log {
        LogFacts(a);
      }
      result[log] := i;
      result[log + 256 - 1] := i;
    }
    forall k: nat | k < 510 ensures result[..][k] == Gf256().Exp(k) {
      ExpFacts(k);
    }
  }

  lemma ProductByTables(a: Byte, b: Byte, logTable: seq<Byte>, expTable: seq<Byte>)
    requires IsLogTable(logTable) && IsExpTable(expTable)
    ensures a != 0 && b != 0 ==>
      var log := logTable[a] as nat + logTable[b] as nat;
      log < 510 && expTable[log] == GalMultiply(a, b)
    ensures a == 0 || b == 0 ==> GalMultiply(a, b) == 0
  {
    hide Gf.Exp;
    if a != 0 && b != 0 {
      LogFacts(a);
      LogFacts(b);
    }
  }

  method GenerateMulTableSplit(logTable: seq<Byte>, expTable: seq<Byte>) returns (result: array2<Byte>)
    requires IsLogTable(logTable) && IsExpTable(expTable)
    ensures fresh(result) && result.Length0 == result.Length1 == 256
    ensures forall a: Byte, b: Byte :: result[a, b] == GalMultiply(a, b)
  {
    hide GalMultiply, IsLogTable, IsExpTable;
    result := new Byte[256, 256]((_, _) => 0);
    TableSizes(logTable, expTable);
    for a := 0 to 256
      invariant forall x: Byte, y: Byte | x < a :: result[x, y] == GalMultiply(x, y)
    {
      for b := 0 to 256
        invariant forall x: Byte, y: Byte | x < a || (x == a && y < b) :: result[x, y] == GalMultiply(x, y)
      {
        ProductByTables(a, b, logTable, expTable);
        result[a, b] := if a == 0 || b == 0 then 0 else expTable[logTable[a] as nat + logTable[b] as nat];
      }
    }
  }

  lemma TableSizes(logTable: seq<Byte>, expTable: seq<Byte>)
    requires IsLogTable(logTable) && IsExpTable(expTable)
    ensures |logTable| == 256 && |expTable| == 510
  {
  }

  // Row a holds the products of a by low and by high nibbles.
  ghost predicate HalfRow(low: array2<Byte>, high: array2<Byte>, a: Byte, upto: nat)
    requires low.Length0 == high.Length0 == 256 && low.Length1 == high.Length1 == 16
    reads low, high
  {
    forall n: Byte | n < 16 ::
      (n < upto ==> low[a, n] == GalMultiply(a, n)) && (Upper(n) < upto ==> high[a, n] == GalMultiply(a, Upper(n)))
  }

  ghost predicate HalfTables(low: array2<Byte>, high: array2<Byte>, rows: nat)
    reads low, high
  {
    && low.Length0 == high.Length0 == 256 && low.Length1 == high.Length1 == 16
    && forall a: Byte | a < rows :: HalfRow(low, high, a, 256)
  }

  function Upper(n: Byte): Byte {
    if n < 16 then 16 * n else 0
  }

  // One row of both tables.
  method HalfRowProducts(logTable: seq<Byte>, expTable: seq<Byte>, low: array2<Byte>, high: array2<Byte>, a: Byte)
    requires IsLogTable(logTable) && IsExpTable(expTable) && low != high
    requires low.Length0 == high.Length0 == 256 && low.Length1 == high.Length1 == 16
    modifies low, high
    ensures HalfRow(low, high, a, 256)
    ensures forall x: Byte, n: Byte | x != a && n < 16 :: low[x, n] == old(low[x, n]) && high[x, n] == old(high[x, n])
  {
    hide GalMultiply, IsLogTable, IsExpTable;
    TableSizes(logTable, expTable);
    for b := 0 to 256
      invariant HalfRow(low, high, a, b)
      invariant forall x: Byte, n: Byte | x != a && n < 16 ::
        low[x, n] == old(low[x, n]) && high[x, n] == old(high[x, n])
    {
      ProductByTables(a, b, logTable, expTable);
      var result := if a == 0 || b == 0 then 0 else expTable[logTable[a] as nat + logTable[b] as nat];
      if b < 16 {
        low[a, b] := result;
      }
      if b % 16 == 0 {
        high[a, b / 16] := result;
      }
    }
  }

  method GenerateMulTableHalf(logTable: seq<Byte>, expTable: seq<Byte>) returns (low: array2<Byte>, high: array2<Byte>)
    requires IsLogTable(logTable) && IsExpTable(expTable)
    ensures fresh(low) && fresh(high) && HalfTables(low, high, 256)
  {
    hide GalMultiply, IsLogTable, IsExpTable;
    low := new Byte[256, 16]((_, _) => 0);
    high := new Byte[256, 16]((_, _) => 0);
    for a := 0 to 256
      invariant fresh(low) && fresh(high) && low != high && HalfTables(low, high, a)
    {
      label Before:
      HalfRowProducts(logTable, expTable, low, high, a);
      forall x: Byte | x < a ensures HalfRow(low, high, x, 256) {
        assert old@Before(HalfRow(low, high, x, 256));
      }
    }
  }

  // Two lookups and an exclusive or are the product.
  lemma HalvesMultiply(low: array2<Byte>, high: array2<Byte>, a: Byte, b: Byte)
    requires HalfTables(low, high, 256)
    ensures GalAdd(low[a, b % 16], high[a, b / 16]) == GalMultiply(a, b)
  {
    hide GalAdd, GalMultiply;
    Nibbles(b);
    Distributes(b % 16, HighNibble(b), a);
    assert Upper(b / 16) == HighNibble(b);
    assert HalfRow(low, high, a, 256);
  }
}
