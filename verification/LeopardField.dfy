// The fields of the two Leopard codecs: 256 elements in leopard8.go and 65536 in leopard.go.
module LeopardField {

  import opened BitXor
  import opened Modular
  import opened BinaryField
  import opened BitMaps
  import opened CantorField
  import opened CantorBases
  import opened Galois
  import opened Registers

  function Field8(): Field {
    Field(Gf256(), CANTOR_8, REGISTER_8)
  }

  function Field16(): Field {
    Field(Register16().WithLogs(), CANTOR_16, REGISTER_16)
  }

  lemma Field8Valid()
    ensures Field8().Valid() && Field8().Order() == 256
  {
    hide Gf.Valid, Undoes, BitMap.Valid, BitMap.Apply, BitMap.Words, Narrower;
    Gf256Valid();
    Bases8();
    assert Gf256().width == 8;
  }

  lemma Field16Valid()
    ensures Field16().Valid() && Field16().Order() == 65536
  {
    hide Gf.Valid, Undoes, BitMap.Valid, BitMap.Apply, BitMap.Words, Narrower, Gf.FullPeriod, Gf.HasShape, Gf.Order;
    FullPeriod16();
    Register16().WithLogsValid();
    Bases16();
    assert Register16().WithLogs().width == 16;
  }

  // ---------- Width 8 ----------

  // logLUT8 and mulLog8.
  function Log8(a: Byte): Byte {
    LogBound8(a);
    Field8().Log(a)
  }

  function MulLog8(a: Byte, logB: Byte): Byte {
    LogBound8(a);
    MulLogBound8(a, logB);
    Field8().MulLog(a, logB)
  }

  lemma LogBound8(a: Byte)
    ensures Field8().Valid() && a < Field8().Order() && Field8().Log(a) < 256
  {
    hide *;
    Field8Valid();
    Field8().LogBound(a);
  }

  lemma MulLogBound8(a: Byte, k: Byte)
    ensures Field8().Valid() && a < Field8().Order() && Field8().MulLog(a, k) < 256
  {
    hide *;
    Field8Valid();
    Field8().MulLogIsShift(a, k);
  }

  lemma MulLogLinear8(a: Byte, b: Byte, k: Byte)
    ensures MulLog8(GalAdd(a, b), k) == GalAdd(MulLog8(a, k), MulLog8(b, k))
  {
    hide Field8, Field.MulLog, BitMap.Apply, Xor, Field.Valid, Field.Order;
    Field8Valid();
    Field8().MulLogLinear(a, b, k);
  }

  lemma ScalingRestores8(a: Byte, k: Byte)
    ensures MulLog8(MulLog8(a, k), 255 - k) == a
  {
    hide Field8, Field.MulLog, BitMap.Apply, Field.Valid, Field.Order;
    Field8Valid();
    Field8().ScalingRestores(a, k);
  }

  lemma MulLogCong8(a: Byte, k: Byte, l: Byte)
    requires Cong(k, l, 255)
    ensures MulLog8(a, k) == MulLog8(a, l)
  {
    hide Field8, Field.MulLog, BitMap.Apply, Field.Valid, Field.Order, Cong;
    Field8Valid();
    Field8().MulLogCong(a, k, l);
  }

  lemma MulLogAdds8(a: Byte, k: Byte, l: Byte, s: Byte)
    requires Cong(s, k + l, 255)
    ensures MulLog8(MulLog8(a, k), l) == MulLog8(a, s)
  {
    hide Field8, Field.MulLog, BitMap.Apply, Field.Valid, Field.Order, Cong;
    Field8Valid();
    Field8().MulLogAdds(a, k, l, s);
  }

  lemma MulLogNone8(a: Byte)
    ensures MulLog8(a, 0) == a
  {
    hide Field8, Field.MulLog, BitMap.Apply, Field.Valid, Field.Order;
    Field8Valid();
    Field8().MulLogNone(a);
  }

  // ---------- Width 16 ----------

  // ffe
  type Ffe = a: nat | a < 65536

  // mulLog.
  function MulLog16(a: Ffe, logB: Ffe): Ffe {
    MulLogBound16(a, logB);
    Field16().MulLog(a, logB)
  }

  // logLUT.
  function Log16(a: Ffe): Ffe {
    LogBound16(a);
    Field16().Log(a)
  }

  lemma LogBound16(a: Ffe)
    ensures Field16().Valid() && a < Field16().Order() && Field16().Log(a) < 65536
  {
    hide *;
    Field16Valid();
    Field16().LogBound(a);
  }

  function Add16(a: Ffe, b: Ffe): Ffe {
    AddBound16(a, b);
    Xor(a, b)
  }

  lemma AddBound16(a: Ffe, b: Ffe)
    ensures Xor(a, b) < 65536
  {
    hide *;
    Field16Valid();
    Field16().XorBelow(a, b);
  }

  lemma MulLogBound16(a: Ffe, k: Ffe)
    ensures Field16().Valid() && a < Field16().Order() && Field16().MulLog(a, k) < 65536
  {
    hide *;
    Field16Valid();
    Field16().MulLogIsShift(a, k);
  }

  lemma MulLogLinear16(a: Ffe, b: Ffe, k: Ffe)
    ensures MulLog16(Add16(a, b), k) == Add16(MulLog16(a, k), MulLog16(b, k))
  {
    hide Field16, Field.MulLog, BitMap.Apply, Xor, Field.Valid, Field.Order;
    Field16Valid();
    Field16().MulLogLinear(a, b, k);
  }
}
