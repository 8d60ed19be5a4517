// matrix.go: matrices over GF(2^8), changed in place, and their inversion.
module Matrix {

  import opened Wrappers
  import opened Galois
  import opened LinearAlgebra
  import opened SolutionSets

  datatype Error = InvalidRowSize | InvalidColSize | SizeMismatch | NotSquare | Singular | AlreadySet

  // The rows of a matrix; rows[..] is its value.
  type Rows = array<Row>

  method NewMatrix(rows: int, cols: int) returns (r: Result<Rows, Error>)
    ensures rows <= 0 ==> r == Err(InvalidRowSize)
    ensures rows > 0 && cols <= 0 ==> r == Err(InvalidColSize)
    ensures rows > 0 && cols > 0 ==> r.Ok? && fresh(r.value) && r.value[..] == seq(rows, _ => Zeros(cols))
  {
    if rows <= 0 {
      return Err(InvalidRowSize);
    }
    if cols <= 0 {
      return Err(InvalidColSize);
    }
    var m := new Row[rows];
    for i := 0 to rows
      invariant forall k | 0 <= k < i :: m[k] == Zeros(cols)
    {
      m[i] := Zeros(cols);
    }
    r := Ok(m);
  }

  method IdentityMatrix(size: int) returns (r: Result<Rows, Error>)
    ensures size <= 0 ==> r == Err(InvalidRowSize)
    ensures size > 0 ==> r.Ok? && fresh(r.value) && r.value[..] == Identity(size)
  {
    r := NewMatrix(size, size);
    if r.Ok? {
      var m := r.value;
      for i := 0 to m.Length
        invariant m.Length == size && fresh(m)
        invariant forall k | 0 <= k < size :: m[k] == if k < i then Unit(size, k) else Zeros(size)
      {
        m[i] := m[i][i := 1];
      }
    }
  }

  method Multiply(m: Rows, right: Rows, ghost cols: nat) returns (r: Result<Rows, Error>)
    requires m.Length > 0 && right.Length > 0 && cols > 0
    requires forall i | 0 <= i < m.Length :: |m[i]| == |m[0]|
    requires IsGrid(right[..], right.Length, cols)
    ensures |m[0]| != right.Length ==> r == Err(SizeMismatch)
    ensures |m[0]| == right.Length ==> r.Ok? && fresh(r.value) && r.value[..] == Product(m[..], right[..], cols)
  {
    if |m[0]| != right.Length {
      return Err(SizeMismatch);
    }
    assert right[..][0] == right[0];
    r := NewMatrix(m.Length, |right[0]|);
    var result: Rows := r.value;
    for row := 0 to m.Length
      invariant result.Length == m.Length && fresh(result)
      invariant forall k | 0 <= k < m.Length ::
        result[k] == if k < row then Product(m[..], right[..], cols)[k] else Zeros(cols)
    {
      hide GalAdd, GalMultiply;
      for c := 0 to |result[row]|
        invariant result.Length == m.Length && |result[row]| == cols && fresh(result)
        invariant forall k | 0 <= k < m.Length && k != row ::
          result[k] == if k < row then Product(m[..], right[..], cols)[k] else Zeros(cols)
        invariant forall d | 0 <= d < c :: result[row][d] == Combine(m[row], right[..], cols, right.Length)[d]
      {
        var value: Byte := 0;
        for i := 0 to |m[0]|
          invariant value == Dot(m[row], Column(right[..], cols, c), i)
        {
          value := GalAdd(value, GalMultiply(m[row][i], right[i][c]));
        }
        CombineEntry(m[row], right[..], cols, right.Length, c);
        result[row] := result[row][c := value];
      }
      assert result[row] == Combine(m[row], right[..], cols, right.Length);
    }
    assert result[..] == Product(m[..], right[..], cols);
  }

  // row with the entries from at on replaced by source.
  function Overwritten(row: Row, at: nat, source: Row): (r: Row)
    requires at + |source| <= |row|
    ensures |r| == |row|
  {
    row[..at] + source + row[at + |source|..]
  }

  lemma OverwrittenTwice(row: Row, a: Row, b: Row)
    requires |row| == |a| + |b|
    ensures Overwritten(Overwritten(row, 0, a), |a|, b) == a + b
  {
  }

  lemma OverwrittenWhole(row: Row, a: Row)
    requires |row| == |a|
    ensures Overwritten(row, 0, a) == a
  {
  }

  // The loop "result[r][at+c] = source[c]".
  method CopyInto(result: Rows, r: nat, at: nat, source: Row)
    requires r < result.Length && at + |source| <= |result[r]|
    modifies result
    ensures result[..] == old(result[..])[r := result[r]]
    ensures result[r] == Overwritten(old(result[r]), at, source)
  {
    ghost var row := result[r];
    for c := 0 to |source|
      invariant result[..] == old(result[..])[r := result[r]]
      invariant |result[r]| == |row|
      invariant forall d | 0 <= d < |row| :: result[r][d] == if at <= d < at + c then source[d - at] else row[d]
    {
      result[r] := result[r][at + c := source[c]];
    }
  }

  method Augment(m: Rows, right: Rows, ghost leftCols: nat, ghost rightCols: nat) returns (r: Result<Rows, Error>)
    requires m.Length > 0 && right.Length > 0 && leftCols > 0 && rightCols > 0
    requires forall i | 0 <= i < m.Length :: |m[i]| == leftCols
    requires forall i | 0 <= i < right.Length :: |right[i]| == rightCols
    ensures m.Length != right.Length ==> r == Err(SizeMismatch)
    ensures m.Length == right.Length ==> r.Ok? && fresh(r.value) && r.value[..] == Joined(m[..], right[..])
  {
    if m.Length != right.Length {
      return Err(SizeMismatch);
    }
    r := NewMatrix(m.Length, |m[0]| + |right[0]|);
    var result: Rows := r.value;
    for row := 0 to m.Length
      invariant result.Length == m.Length && fresh(result)
      invariant forall k | 0 <= k < m.Length ::
        if k < row then result[k] == m[k] + right[k] else |result[k]| == leftCols + rightCols
    {
      hide Overwritten;
      OverwrittenTwice(result[row], m[row], right[row]);
      CopyInto(result, row, 0, m[row]);
      var cols := |m[0]|;
      CopyInto(result, row, cols, right[row]);
    }
    assert result[..] == Joined(m[..], right[..]);
  }

  method SubMatrix(m: Rows, rmin: nat, cmin: nat, rmax: nat, cmax: nat) returns (r: Result<Rows, Error>)
    requires rmax <= m.Length && forall i | rmin <= i < rmax :: cmax <= |m[i]|
    ensures rmax <= rmin ==> r == Err(InvalidRowSize)
    ensures rmin < rmax && cmax <= cmin ==> r == Err(InvalidColSize)
    ensures rmin < rmax && cmin < cmax ==>
      r.Ok? && fresh(r.value) && r.value.Length == rmax - rmin
      && forall i | 0 <= i < rmax - rmin :: r.value[i] == m[rmin + i][cmin..cmax]
  {
    r := NewMatrix(rmax - rmin, cmax - cmin);
    if r.Ok? {
      var result: Rows := r.value;
      for row := rmin to rmax
        invariant result.Length == rmax - rmin && fresh(result)
        invariant forall k | 0 <= k < result.Length ::
          if k < row - rmin then result[k] == m[rmin + k][cmin..cmax] else |result[k]| == cmax - cmin
      {
        OverwrittenWhole(result[row - rmin], m[row][cmin..cmax]);
        CopyInto(result, row - rmin, 0, m[row][cmin..cmax]);
      }
    }
  }

  method SwapRows(m: Rows, r1: int, r2: int) returns (r: Result<(), Error>)
    modifies m
    ensures r == if 0 <= r1 < m.Length && 0 <= r2 < m.Length then Ok(()) else Err(InvalidRowSize)
    ensures m[..] == if r.Ok? then old(m[..])[r1 := old(m[r2])][r2 := old(m[r1])] else old(m[..])
  {
    if r1 < 0 || m.Length <= r1 || r2 < 0 || m.Length <= r2 {
      return Err(InvalidRowSize);
    }
    m[r2], m[r1] := m[r1], m[r2];
    return Ok(());
  }

  // The loop "m[r][c] = galMultiply(m[r][c], scale)".
  method ScaleRow(m: Rows, r: nat, scale: Byte)
    requires r < m.Length
    modifies m
    ensures m[..] == old(m[..])[r := Scaled(old(m[r]), scale)]
  {
    hide GalMultiply;
    ghost var row := m[r];
    for c := 0 to |m[r]|
      invariant |m[r]| == |row| && m[..] == old(m[..])[r := m[r]]
      invariant forall k | 0 <= k < |row| :: m[r][k] == if k < c then Scaled(row, scale)[k] else row[k]
    {
      m[r] := m[r][c := GalMultiply(m[r][c], scale)];
    }
    assert m[r] == Scaled(row, scale);
  }

  // The loop "m[target][c] ^= galMultiply(scale, m[source][c])".
  method AddRow(m: Rows, target: nat, scale: Byte, source: nat)
    requires target < m.Length && source < m.Length && target != source
    requires |m[target]| == |m[source]|
    modifies m
    ensures m[..] == old(m[..])[target := AddScaled(old(m[target]), scale, old(m[source]))]
  {
    hide GalMultiply, GalAdd;
    ghost var row := m[target];
    for c := 0 to |m[target]|
      invariant |m[target]| == |row| && m[..] == old(m[..])[target := m[target]] && m[source] == old(m[source])
      invariant forall k | 0 <= k < |row| ::
        m[target][k] == if k < c then AddScaled(row, scale, m[source])[k] else row[k]
    {
      m[target] := m[target][c := GalAdd(m[target][c], GalMultiply(scale, m[source][c]))];
    }
    assert m[target] == AddScaled(row, scale, m[source]);
  }

  // ---------- Gaussian elimination ----------

  // Brings a nonzero entry of column r to the diagonal and scales it to 1.
  method Pivot(m: Rows, r: nat, ghost cols: nat, ghost original: Grid) returns (found: bool)
    requires r < m.Length && Stage(original, m[..], m.Length, cols, r)
    modifies m
    ensures Stage(original, m[..], m.Length, cols, r)
    ensures found ==> m[r][r] == 1
    ensures !found ==> forall i | r <= i < m.Length :: m[i][r] == 0
  {
    hide SameSolutions, Echelon, Scaled, GalOneOver;
    var rows := m.Length;
    assert forall i | 0 <= i < rows :: |m[..][i]| == cols;
    if m[r][r] == 0 {
      var rowBelow := r + 1;
      while rowBelow < rows
        invariant r < rowBelow <= rows
        invariant forall i | r <= i < rowBelow :: m[i][r] == 0
      {
        if m[rowBelow][r] != 0 {
          StageSwap(original, m[..], rows, cols, r, rowBelow);
          var _ := SwapRows(m, r, rowBelow);
          break;
        }
        rowBelow := rowBelow + 1;
      }
    }
    if m[r][r] == 0 {
      return false;
    }
    if m[r][r] != 1 {
      StageScale(original, m[..], rows, cols, r);
      var scale := GalOneOver(m[r][r]);
      ScaleRow(m, r, scale);
    }
    return true;
  }

  // Subtracts multiples of row r from the rows below it.
  method ClearBelow(m: Rows, r: nat, ghost cols: nat, ghost original: Grid)
    requires r < m.Length && Stage(original, m[..], m.Length, cols, r) && m[r][r] == 1
    modifies m
    ensures Stage(original, m[..], m.Length, cols, r + 1)
  {
    hide SameSolutions, Echelon, AddScaled;
    var rows := m.Length;
    for rowBelow := r + 1 to rows
      invariant Stage(original, m[..], rows, cols, r) && m[..][r][r] == 1
      invariant forall i | r < i < rowBelow :: m[..][i][r] == 0
    {
      assert |m[..][rowBelow]| == cols && |m[..][r]| == cols;
      if m[rowBelow][r] != 0 {
        StageBelow(original, m[..], rows, cols, r, rowBelow);
        var scale := m[rowBelow][r];
        AddRow(m, rowBelow, scale, r);
      }
    }
    StageNext(original, m[..], rows, cols, r);
  }

  // Clears column d above the diagonal.
  method ClearAbove(m: Rows, d: nat, ghost cols: nat, ghost original: Grid)
    requires d < m.Length && BackStage(original, m[..], m.Length, cols, d)
    modifies m
    ensures BackStage(original, m[..], m.Length, cols, d + 1)
  {
    hide SameSolutions, Echelon, Cleared, AddScaled;
    var rows := m.Length;
    for rowAbove := 0 to d
      invariant BackStage(original, m[..], rows, cols, d)
      invariant forall i | 0 <= i < rowAbove :: m[..][i][d] == 0
    {
      assert |m[..][rowAbove]| == cols && |m[..][d]| == cols;
      if m[rowAbove][d] != 0 {
        BackStageAbove(original, m[..], rows, cols, d, rowAbove);
        var scale := m[rowAbove][d];
        AddRow(m, rowAbove, scale, d);
      }
    }
    BackStageNext(original, m[..], rows, cols, d);
  }

  // The left square becomes the identity, or a nonzero vector on the left columns is killed.
  method GaussianElimination(m: Rows, ghost cols: nat) returns (r: Result<(), Error>, ghost kernel: Row)
    requires 0 < m.Length <= cols && IsGrid(m[..], m.Length, cols)
    modifies m
    ensures IsGrid(m[..], m.Length, cols) && SameSolutions(old(m[..]), m[..], m.Length, cols)
    ensures r.Ok? ==> Cleared(m[..], m.Length, cols, m.Length)
    ensures r.Err? ==>
      && r.error == Singular
      && |kernel| == cols && kernel[..m.Length] != Zeros(m.Length) && kernel[m.Length..] == Zeros(cols - m.Length)
      && Kills(old(m[..]), kernel)
  {
    hide Echelon, Kills;
    ghost var original := m[..];
    var rows := m.Length;
    kernel := [];
    StageStart(original, rows, cols);
    for row := 0 to rows
      invariant Stage(original, m[..], rows, cols, row)
    {
      var found := Pivot(m, row, cols, original);
      if !found {
        kernel := NoPivotKernel(m[..], rows, cols, row);
        assert kernel[..rows][row] == 1;
        return Err(Singular), kernel;
      }
      ClearBelow(m, row, cols, original);
    }
    for d := 0 to rows
      invariant BackStage(original, m[..], rows, cols, d)
    {
      ClearAbove(m, d, cols, original);
    }
    r := Ok(());
  }

  // ---------- Inversion ----------

  ghost predicate Invertible(a: Grid, n: nat) {
    exists b: Grid :: AreInverse(a, b, n)
  }

  // The receiver keeps its value: no matrix that existed before the call is modified.
  method Invert(m: Rows, ghost cols: nat) returns (r: Result<Rows, Error>, ghost kernel: Row)
    requires m.Length > 0 && cols > 0 && IsGrid(m[..], m.Length, cols)
    ensures m.Length != cols ==> r == Err(NotSquare)
    ensures m.Length == cols ==> r.Ok? || r == Err(Singular)
    ensures m.Length == cols ==> (r.Ok? <==> Invertible(m[..], cols))
    ensures r.Ok? ==> fresh(r.value) && AreInverse(m[..], r.value[..], cols)
    ensures r == Err(Singular) ==>
      |kernel| == cols && kernel != Zeros(cols) && Apply(m[..], kernel) == Zeros(cols)
  {
    hide SameSolutions, Kills, Dot, Apply, Product, Joined, Identity;
    assert forall i | 0 <= i < m.Length :: |m[..][i]| == cols;
    kernel := [];
    if m.Length != |m[0]| {
      return Err(NotSquare), [];
    }
    var size := m.Length;
    var id := IdentityMatrix(size);
    assert forall i | 0 <= i < size :: |id.value[..][i]| == cols;
    var augmented := Augment(m, id.value, cols, cols);
    var work: Rows := augmented.value;
    assert forall i | 0 <= i < size :: |Joined(m[..], Identity(size))[i]| == 2 * size;
    var e;
    ghost var v;
    e, v := GaussianElimination(work, 2 * size);
    if e.Err? {
      kernel := v[..size];
      SingularFromKernel(m[..], v, size);
      return Err(Singular), kernel;
    }
    assert forall i | 0 <= i < size :: |work[..][i]| == 2 * size;
    r := SubMatrix(work, 0, size, size, size * 2);
    LeftIsIdentity(work[..], r.value[..], size);
    EliminationInverts(m[..], r.value[..], size);
  }

  lemma LeftIsIdentity(w: Grid, b: Grid, n: nat)
    requires IsGrid(w, n, 2 * n) && IsGrid(b, n, n) && Cleared(w, n, 2 * n, n)
    requires forall i | 0 <= i < n :: b[i] == w[i][n..2 * n]
    ensures w == Joined(Identity(n), b)
  {
    forall i | 0 <= i < n ensures w[i] == Identity(n)[i] + b[i] {
      assert w[i][..n] == Identity(n)[i];
      assert w[i] == w[i][..n] + w[i][n..];
    }
  }

  lemma SingularFromKernel(a: Grid, v: Row, n: nat)
    requires IsGrid(a, n, n) && |v| == 2 * n
    requires Kills(Joined(a, Identity(n)), v) && v[..n] != Zeros(n) && v[n..] == Zeros(n)
    ensures Apply(a, v[..n]) == Zeros(n) && !Invertible(a, n)
  {
    hide Dot;
    assert v == v[..n] + v[n..];
    JoinedKills(a, Identity(n), v[..n], v[n..]);
    ApplyIdentity(Zeros(n));
    forall b: Grid ensures !AreInverse(a, b, n) {
      KernelMeansSingular(a, b, v[..n]);
    }
  }
}
