// The formal derivative of the Leopard decoder: a loop in place, each round of which adds
// stretches of shards to the stretches before them.
module FormalDerivative {

  import opened BitXor
  import opened Shards
  import Modular

  // ---------- What it computes ----------

  // Shard j combined with shard j + 2^b for each clear bit b of j below k.
  function DerivativeAt(w: seq<Shard>, j: nat, k: nat): (r: Shard)
    requires j < Pow2(k) <= |w|
  {
    Accumulated(w, j, k)
  }

  function Accumulated(w: seq<Shard>, j: nat, k: nat): Shard
    requires j < |w|
  {
    if k == 0 then w[j]
    else
      var b := Pow2(k - 1);
      if j / b % 2 == 0 && j + b < |w| then Xor2(Accumulated(w, j, k - 1), w[j + b])
      else Accumulated(w, j, k - 1)
  }

  // ---------- The lowest bit ----------

  // ((i ^ (i - 1)) + 1) >> 1
  function Width(i: nat): nat
    requires i > 0
  {
    (Xor(i, i - 1) + 1) / 2
  }

  lemma WidthOfPower(k: nat)
    ensures Width(Pow2(k)) == Pow2(k)
  {
    XorPow2(Pow2(k) - 1, k);
  }

  lemma WidthAbove(i: nat, k: nat)
    requires 0 < i < Pow2(k)
    ensures Width(Pow2(k) + i) == Width(i)
  {
    XorTopBit(i, i - 1, k);
  }

  // The stretches stay inside 2^k shards.
  lemma {:induction false} WidthFits(i: nat, k: nat)
    requires 0 < i < Pow2(k)
    ensures 0 < Width(i) <= i && i + Width(i) <= Pow2(k)
  {
    hide Width;
    PowZero();
    PowStep(k);
    var h := Pow2(k - 1);
    if i < h {
      WidthFits(i, k - 1);
    } else if i == h {
      WidthOfPower(k - 1);
    } else {
      WidthAbove(i - h, k - 1);
      WidthFits(i - h, k - 1);
    }
  }

  // ---------- The rounds ----------

  // Shard j after the rounds below i, when each round reads original shards.
  function After(w: seq<Shard>, j: nat, i: nat): Shard
    requires j < |w|
  {
    if i <= 1 then w[j]
    else
      var d := Width(i - 1);
      if i - 1 - d <= j < i - 1 && j + d < |w| then Xor2(After(w, j, i - 1), w[j + d]) else After(w, j, i - 1)
  }

  lemma AfterStep(w: seq<Shard>, j: nat, i: nat, d: nat)
    requires 0 < i && j < |w| && d == Width(i)
    ensures After(w, j, i + 1)
         == if i - d <= j < i && j + d < |w| then Xor2(After(w, j, i), w[j + d]) else After(w, j, i)
  {
  }

  // What a round reads has not been written.
  lemma {:induction false} ReadsOriginal(w: seq<Shard>, j: nat, i: nat)
    requires j < |w| && i <= j + 1
    ensures After(w, j, i) == w[j]
  {
    if i > 1 {
      ReadsOriginal(w, j, i - 1);
    }
  }

  lemma {:induction false} LowHalfRests(w: seq<Shard>, j: nat, i: nat, k: nat)
    requires |w| == 2 * Pow2(k) && j < Pow2(k) < i <= 2 * Pow2(k)
    ensures After(w, j, i) == After(w, j, Pow2(k) + 1)
  {
    hide Width, After;
    var h := Pow2(k);
    if i > h + 1 {
      LowHalfRests(w, j, i - 1, k);
      WidthAbove(i - 1 - h, k);
      WidthFits(i - 1 - h, k);
      AfterStep(w, j, i - 1, Width(i - 1));
    }
  }

  lemma {:induction false} HighHalfShifts(w: seq<Shard>, j: nat, i: nat, k: nat)
    requires |w| == 2 * Pow2(k) && Pow2(k) <= j < 2 * Pow2(k) && 1 <= i <= Pow2(k)
    ensures After(w, j, Pow2(k) + i) == After(w[Pow2(k)..], j - Pow2(k), i)
  {
    hide Width, After;
    var h := Pow2(k);
    if i > 1 {
      HighHalfShifts(w, j, i - 1, k);
      WidthAbove(i - 1, k);
      WidthFits(i - 1, k);
      AfterStep(w, j, h + i - 1, Width(i - 1));
      AfterStep(w[h..], j - h, i - 1, Width(i - 1));
    } else {
      ReadsOriginal(w, j, h + 1);
      ReadsOriginal(w[h..], j - h, 1);
    }
  }

  lemma {:induction false} LowHalfSame(w: seq<Shard>, j: nat, i: nat, k: nat)
    requires |w| == 2 * Pow2(k) && j < Pow2(k) && i <= Pow2(k)
    ensures After(w, j, i) == After(w[..Pow2(k)], j, i)
  {
    hide Width, After;
    var h := Pow2(k);
    if i > 1 {
      LowHalfSame(w, j, i - 1, k);
      WidthFits(i - 1, k);
      AfterStep(w, j, i - 1, Width(i - 1));
      AfterStep(w[..h], j, i - 1, Width(i - 1));
    } else {
      ReadsOriginal(w, j, i);
      ReadsOriginal(w[..h], j, i);
    }
  }

  // ---------- The rounds visit each clear bit once ----------

  lemma AccumulatedStep(w: seq<Shard>, j: nat, k: nat, b: nat)
    requires j < |w| && k > 0 && b == Pow2(k - 1)
    ensures Accumulated(w, j, k) == if j / b % 2 == 0 && j + b < |w| then Xor2(Accumulated(w, j, k - 1), w[j + b])
                                    else Accumulated(w, j, k - 1)
  {
  }

  lemma BitOfHigh(j: nat, k: nat, b: nat)
    requires b < k
    ensures Pow2(k) % (2 * Pow2(b)) == 0 && (Pow2(k) + j) / Pow2(b) % 2 == j / Pow2(b) % 2
  {
    var q := HalfMultiple(k, b);
    var d := Pow2(b);
    hide Pow2;
    BitShift(j, d, q);
  }

  lemma HalfMultiple(k: nat, b: nat) returns (q: nat)
    requires b < k
    ensures Pow2(k) == q * (2 * Pow2(b))
  {
    if b == k - 1 {
      PowStep(k);
      q := 1;
    } else {
      PowStep(k);
      q := HalfMultiple(k - 1, b);
      assert 2 * (q * (2 * Pow2(b))) == (2 * q) * (2 * Pow2(b));
      q := 2 * q;
    }
  }

  lemma BitShift(j: nat, d: nat, q: nat)
    requires d > 0
    ensures q * (2 * d) % (2 * d) == 0 && (q * (2 * d) + j) / d % 2 == j / d % 2
  {
    Modular.ModUnique(q * (2 * d), q, 0, 2 * d);
    assert q * (2 * d) + j == (2 * q + j / d) * d + j % d by {
      assert j == j / d * d + j % d;
      assert (2 * q + j / d) * d == q * (2 * d) + j / d * d;
    }
    Modular.ModUnique(q * (2 * d) + j, 2 * q + j / d, j % d, d);
  }

  lemma {:induction false} HighBits(w: seq<Shard>, j: nat, k: nat, b: nat)
    requires |w| == 2 * Pow2(k) && Pow2(k) <= j < 2 * Pow2(k) && b <= k
    ensures Accumulated(w, j, b) == Accumulated(w[Pow2(k)..], j - Pow2(k), b)
  {
    hide Accumulated;
    if b > 0 {
      HighBits(w, j, k, b - 1);
      BitOfHigh(j - Pow2(k), k, b - 1);
      AccumulatedStep(w, j, b, Pow2(b - 1));
      AccumulatedStep(w[Pow2(k)..], j - Pow2(k), b, Pow2(b - 1));
    } else {
      AccumulatedZero(w, j);
      AccumulatedZero(w[Pow2(k)..], j - Pow2(k));
    }
  }

  lemma AccumulatedZero(w: seq<Shard>, j: nat)
    requires j < |w|
    ensures Accumulated(w, j, 0) == w[j]
  {
  }

  // A clear bit leaves room for its power.
  lemma ClearBitRoom(j: nat, k: nat, b: nat)
    requires b < k && j < Pow2(k) && j / Pow2(b) % 2 == 0
    ensures j + Pow2(b) < Pow2(k)
  {
    var q := HalfMultiple(k, b);
    var d := Pow2(b);
    hide Pow2;
    RoomIn(j, d, q);
  }

  lemma RoomIn(j: nat, d: nat, q: nat)
    requires d > 0 && j < q * (2 * d) && j / d % 2 == 0
    ensures j + d < q * (2 * d)
  {
    var c := j / d / 2;
    assert j / d == 2 * c;
    assert j == j / d * d + j % d && j % d < d;
    assert 2 * c * d == c * (2 * d);
    if c >= q {
      Modular.MulMonotone(q, c, 2 * d);
    } else {
      Modular.MulMonotone(c + 1, q, 2 * d);
    }
  }

  lemma {:induction false} LowBits(w: seq<Shard>, j: nat, k: nat, b: nat)
    requires |w| == 2 * Pow2(k) && j < Pow2(k) && b <= k
    ensures Accumulated(w, j, b) == Accumulated(w[..Pow2(k)], j, b)
  {
    hide Accumulated;
    if b > 0 {
      LowBits(w, j, k, b - 1);
      if j / Pow2(b - 1) % 2 == 0 {
        ClearBitRoom(j, k, b - 1);
      }
      AccumulatedStep(w, j, b, Pow2(b - 1));
      AccumulatedStep(w[..Pow2(k)], j, b, Pow2(b - 1));
    } else {
      AccumulatedZero(w, j);
      AccumulatedZero(w[..Pow2(k)], j);
    }
  }

  lemma TopBit(j: nat, h: nat)
    requires j < 2 * h
    ensures j / h == if j < h then 0 else 1
  {
    if j < h {
      Modular.ModUnique(j, 0, j, h);
    } else {
      Modular.ModUnique(j, 1, j - h, h);
    }
  }

  lemma {:induction false} RoundsAreBits(w: seq<Shard>, j: nat, k: nat)
    requires |w| == Pow2(k) && j < |w|
    ensures After(w, j, Pow2(k)) == Accumulated(w, j, k)
    decreases k
  {
    hide After, Accumulated, Width;
    if k == 0 {
      PowZero();
      ReadsOriginal(w, j, 1);
      AccumulatedZero(w, j);
    } else {
      var h := Pow2(k - 1);
      PowStep(k);
      TopBit(j, h);
      AccumulatedStep(w, j, k, h);
      if j < h {
        LowHalfRests(w, j, 2 * h, k - 1);
        WidthOfPower(k - 1);
        AfterStep(w, j, h, h);
        LowHalfSame(w, j, h, k - 1);
        RoundsAreBits(w[..h], j, k - 1);
        LowBits(w, j, k - 1, k - 1);
      } else {
        HighHalfShifts(w, j, h, k - 1);
        RoundsAreBits(w[h..], j - h, k - 1);
        HighBits(w, j, k - 1, k - 1);
      }
    }
  }

  // ---------- The loop ----------

  // slicesXor of the width shards at i into those before them.
  method AddStretch(work: array<Shard>, i: nat, width: nat)
    requires width <= i && i + width <= work.Length
    modifies work
    ensures forall j | 0 <= j < work.Length ::
      work[j] == if i - width <= j < i then Xor2(old(work[j]), old(work[j + width])) else old(work[j])
    ensures SameSizes(old(work[..]), work[..])
  {
    hide Xor2;
    for x := 0 to width
      invariant forall j | 0 <= j < work.Length ::
        work[j] == if i - width <= j < i - width + x then Xor2(old(work[j]), old(work[j + width])) else old(work[j])
      invariant SameSizes(old(work[..]), work[..])
    {
      work[i - width + x] := Xor2(work[i - width + x], work[i + x]);
    }
  }

  method Derive(work: array<Shard>, n: nat, ghost k: nat)
    requires n == Pow2(k) <= work.Length
    modifies work
    ensures forall j | 0 <= j < n :: work[j] == DerivativeAt(old(work[..n]), j, k)
    ensures forall j | n <= j < work.Length :: work[j] == old(work[j])
    ensures SameSizes(old(work[..]), work[..])
  {
    hide After, Width, Xor2, Accumulated;
    ghost var w := work[..n];
    forall j | 0 <= j < n ensures After(w, j, 1) == w[j] {
      ReadsOriginal(w, j, 1);
    }
    for i := 1 to n
      invariant forall j | 0 <= j < n :: work[j] == After(w, j, i)
      invariant forall j | n <= j < work.Length :: work[j] == old(work[j])
      invariant SameSizes(old(work[..]), work[..])
    {
      var width := Width(i);
      WidthFits(i, k);
      AddStretch(work, i, width);
      forall j | 0 <= j < n ensures work[j] == After(w, j, i + 1) {
        AfterStep(w, j, i, width);
        if i - width <= j < i {
          ReadsOriginal(w, j + width, i);
        }
      }
    }
    forall j | 0 <= j < n ensures work[j] == DerivativeAt(w, j, k) {
      RoundsAreBits(w, j, k);
    }
  }
}
