// What Gauss-Jordan elimination keeps: the vectors every row is orthogonal to.
module SolutionSets {

  import opened Galois
  import opened LinearAlgebra

  ghost predicate Kills(m: Grid, v: Row)
    requires forall i | 0 <= i < |m| :: |m[i]| == |v|
  {
    forall i | 0 <= i < |m| :: Dot(m[i], v, |v|) == 0
  }

  ghost predicate SameSolutions(a: Grid, b: Grid, rows: nat, cols: nat)
    requires IsGrid(a, rows, cols) && IsGrid(b, rows, cols)
  {
    forall v: Row | |v| == cols :: Kills(a, v) <==> Kills(b, v)
  }

  // Replacing rows by combinations of killed rows keeps a vector killed.
  lemma SwapKeepsSolutions(m: Grid, rows: nat, cols: nat, i: nat, j: nat)
    requires IsGrid(m, rows, cols) && i < rows && j < rows
    ensures SameSolutions(m, m[i := m[j]][j := m[i]], rows, cols)
  {
    hide Dot;
    var m' := m[i := m[j]][j := m[i]];
    forall v: Row | |v| == cols ensures Kills(m, v) <==> Kills(m', v) {
      if Kills(m', v) {
        forall k | 0 <= k < rows ensures Dot(m[k], v, cols) == 0 {
          assert m[k] == m'[if k == i then j else if k == j then i else k];
        }
      }
    }
  }

  lemma ScaleKeepsSolutions(m: Grid, rows: nat, cols: nat, r: nat, s: Byte)
    requires IsGrid(m, rows, cols) && r < rows && s != 0
    ensures SameSolutions(m, m[r := Scaled(m[r], s)], rows, cols)
  {
    hide Dot, GalMultiply, GalAdd, Scaled;
    var m' := m[r := Scaled(m[r], s)];
    forall v: Row | |v| == cols ensures Kills(m, v) <==> Kills(m', v) {
      DotScaled(m[r], s, v, cols);
      MulLaws(s, Dot(m[r], v, cols), 0);
      if Kills(m', v) {
        forall k | 0 <= k < rows ensures Dot(m[k], v, cols) == 0 {
          assert Dot(m'[k], v, cols) == 0;
        }
      }
    }
  }

  lemma AddKeepsSolutions(m: Grid, rows: nat, cols: nat, target: nat, s: Byte, source: nat)
    requires IsGrid(m, rows, cols) && target < rows && source < rows && target != source
    ensures SameSolutions(m, m[target := AddScaled(m[target], s, m[source])], rows, cols)
  {
    hide Dot, GalMultiply, GalAdd, AddScaled;
    var m' := m[target := AddScaled(m[target], s, m[source])];
    forall v: Row | |v| == cols ensures Kills(m, v) <==> Kills(m', v) {
      DotAddScaled(m[target], s, m[source], v, cols);
      var d, e := Dot(m[target], v, cols), Dot(m[source], v, cols);
      MulLaws(s, 0, 0);
      AddLaws(d, 0, 0);
      if Kills(m', v) {
        assert Dot(m'[source], v, cols) == 0;
        assert Dot(m'[target], v, cols) == 0;
        forall k | 0 <= k < rows ensures Dot(m[k], v, cols) == 0 {
          assert Dot(m'[k], v, cols) == 0;
        }
      }
    }
  }

  // ---------- Columns already cleared ----------

  // In each of the first r columns the diagonal is 1 and everything below it is 0.
  ghost predicate Echelon(m: Grid, rows: nat, cols: nat, r: nat)
    requires IsGrid(m, rows, cols) && r <= rows <= cols
  {
    forall c, i | 0 <= c < r && c <= i < rows :: m[i][c] == if i == c then 1 else 0
  }

  // The first d columns are those of the identity.
  ghost predicate Cleared(m: Grid, rows: nat, cols: nat, d: nat)
    requires IsGrid(m, rows, cols) && d <= rows <= cols
  {
    forall c, i | 0 <= c < d && 0 <= i < rows :: m[i][c] == if i == c then 1 else 0
  }

  // The state of elimination before column r: the original's solutions, r columns done.
  ghost predicate Stage(original: Grid, m: Grid, rows: nat, cols: nat, r: nat) {
    && r <= rows <= cols
    && IsGrid(original, rows, cols)
    && IsGrid(m, rows, cols)
    && SameSolutions(original, m, rows, cols)
    && Echelon(m, rows, cols, r)
  }

  // The state of the second pass before column d.
  ghost predicate BackStage(original: Grid, m: Grid, rows: nat, cols: nat, d: nat) {
    Stage(original, m, rows, cols, rows) && d <= rows && Cleared(m, rows, cols, d)
  }

  lemma AddScaledEntry(u: Row, s: Byte, w: Row, c: nat)
    requires |u| == |w| && c < |u|
    ensures w[c] == 0 ==> AddScaled(u, s, w)[c] == u[c]
    ensures w[c] == 1 && s == u[c] ==> AddScaled(u, s, w)[c] == 0
  {
    hide GalMultiply, GalAdd;
    MulLaws(s, 0, 0);
    MulLaws(s, 1, 0);
    AddLaws(u[c], s, 0);
  }

  lemma ScaledEntry(u: Row, s: Byte, c: nat)
    requires c < |u|
    ensures u[c] == 0 ==> Scaled(u, s)[c] == 0
    ensures u[c] != 0 && s == GalOneOver(u[c]) ==> Scaled(u, s)[c] == 1
  {
    hide GalMultiply, GalAdd, GalOneOver;
    MulLaws(u[c], s, 0);
    MulLaws(s, 0, 0);
  }

  lemma StageStart(m: Grid, rows: nat, cols: nat)
    requires rows <= cols && IsGrid(m, rows, cols)
    ensures Stage(m, m, rows, cols, 0)
  {
  }

  lemma StageSwap(original: Grid, m: Grid, rows: nat, cols: nat, r: nat, i: nat)
    requires Stage(original, m, rows, cols, r) && r <= i < rows
    ensures Stage(original, m[r := m[i]][i := m[r]], rows, cols, r)
  {
    hide Kills;
    SwapKeepsSolutions(m, rows, cols, r, i);
    var m' := m[r := m[i]][i := m[r]];
    forall c, k | 0 <= c < r && c <= k < rows ensures m'[k][c] == if k == c then 1 else 0 {
      assert m[c][c] == 1 && m[i][c] == 0;
    }
  }

  lemma StageScale(original: Grid, m: Grid, rows: nat, cols: nat, r: nat)
    requires Stage(original, m, rows, cols, r) && r < rows && m[r][r] != 0
    ensures Stage(original, m[r := Scaled(m[r], GalOneOver(m[r][r]))], rows, cols, r)
    ensures Scaled(m[r], GalOneOver(m[r][r]))[r] == 1
  {
    hide Kills, Scaled, GalOneOver, GalMultiply;
    var s := GalOneOver(m[r][r]);
    MulLaws(m[r][r], 0, 0);
    ScaleKeepsSolutions(m, rows, cols, r, s);
    ScaledEntry(m[r], s, r);
    forall c | 0 <= c < r ensures Scaled(m[r], s)[c] == 0 {
      assert m[r][c] == 0;
      ScaledEntry(m[r], s, c);
    }
  }

  lemma StageBelow(original: Grid, m: Grid, rows: nat, cols: nat, r: nat, i: nat)
    requires Stage(original, m, rows, cols, r) && r < i < rows && m[r][r] == 1
    ensures Stage(original, m[i := AddScaled(m[i], m[i][r], m[r])], rows, cols, r)
    ensures AddScaled(m[i], m[i][r], m[r])[r] == 0
  {
    hide Kills, AddScaled;
    AddKeepsSolutions(m, rows, cols, i, m[i][r], r);
    AddScaledEntry(m[i], m[i][r], m[r], r);
    var row := AddScaled(m[i], m[i][r], m[r]);
    forall c | 0 <= c < r ensures row[c] == 0 {
      assert m[r][c] == 0 && m[i][c] == 0;
      AddScaledEntry(m[i], m[i][r], m[r], c);
    }
  }

  lemma StageNext(original: Grid, m: Grid, rows: nat, cols: nat, r: nat)
    requires Stage(original, m, rows, cols, r) && r < rows && m[r][r] == 1
    requires forall i | r < i < rows :: m[i][r] == 0
    ensures Stage(original, m, rows, cols, r + 1)
  {
    hide SameSolutions;
  }

  lemma BackStageAbove(original: Grid, m: Grid, rows: nat, cols: nat, d: nat, i: nat)
    requires BackStage(original, m, rows, cols, d) && i < d < rows
    ensures BackStage(original, m[i := AddScaled(m[i], m[i][d], m[d])], rows, cols, d)
    ensures AddScaled(m[i], m[i][d], m[d])[d] == 0
  {
    hide Kills, AddScaled;
    var row := AddScaled(m[i], m[i][d], m[d]);
    AddKeepsSolutions(m, rows, cols, i, m[i][d], d);
    assert m[d][d] == 1;
    AddScaledEntry(m[i], m[i][d], m[d], d);
    forall c | 0 <= c < d ensures row[c] == m[i][c] {
      assert m[d][c] == 0;
      AddScaledEntry(m[i], m[i][d], m[d], c);
    }
  }

  lemma BackStageNext(original: Grid, m: Grid, rows: nat, cols: nat, d: nat)
    requires BackStage(original, m, rows, cols, d) && d < rows
    requires forall i | 0 <= i < d :: m[i][d] == 0
    ensures BackStage(original, m, rows, cols, d + 1)
  {
    hide SameSolutions;
    assert m[d][d] == 1;
  }

  // ---------- A column with no pivot ----------

  lemma DotUpdate(u: Row, v: Row, k: nat, s: Byte)
    requires |u| == |v| && k < |v| && v[k] == 0
    ensures Dot(u, v[k := s], |v|) == GalAdd(Dot(u, v, |v|), GalMultiply(s, u[k]))
  {
    hide Dot, GalAdd, GalMultiply;
    var n := |v|;
    var w := AddScaled(v, s, Unit(n, k));
    forall c | 0 <= c < n ensures w[c] == v[k := s][c] {
      MulLaws(s, Unit(n, k)[c], 0);
      AddLaws(v[c], 0, 0);
      MulLaws(s, 1, 0);
      AddLaws(s, 0, 0);
    }
    assert w == v[k := s];
    DotAddScaled(v, s, Unit(n, k), u, n);
    DotCommutes(u, w, n);
    DotCommutes(u, v, n);
    DotUnit(u, k, n);
  }

  // Back substitution: rows k to r - 1 fix entries k to r - 1 of a vector that is 1 at r.
  lemma {:induction false} BackSubstitute(m: Grid, rows: nat, cols: nat, r: nat, k: nat) returns (x: Row)
    requires IsGrid(m, rows, cols) && k <= r < rows <= cols && Echelon(m, rows, cols, r)
    ensures |x| == cols && x[r] == 1
    ensures forall c | 0 <= c < cols && (c < k || c > r) :: x[c] == 0
    ensures forall i | k <= i < r :: Dot(m[i], x, cols) == 0
    decreases r - k
  {
    if k == r {
      x := Unit(cols, r);
    } else {
      hide Dot, GalAdd, GalMultiply;
      var y := BackSubstitute(m, rows, cols, r, k + 1);
      var s := Dot(m[k], y, cols);
      x := y[k := s];
      forall i | k <= i < r ensures Dot(m[i], x, cols) == 0 {
        DotUpdate(m[i], y, k, s);
        MulLaws(s, 1, 0);
        MulLaws(s, 0, 0);
        AddLaws(s, s, 0);
        AddLaws(0, 0, 0);
      }
    }
  }

  // A column without a pivot gives a nonzero vector on the left columns that every row kills.
  lemma NoPivotKernel(m: Grid, rows: nat, cols: nat, r: nat) returns (x: Row)
    requires IsGrid(m, rows, cols) && r < rows <= cols && Echelon(m, rows, cols, r)
    requires forall i | r <= i < rows :: m[i][r] == 0
    ensures |x| == cols && x[r] == 1 && forall c | r < c < cols :: x[c] == 0
    ensures Kills(m, x)
  {
    x := BackSubstitute(m, rows, cols, r, 0);
    forall i | 0 <= i < rows ensures Dot(m[i], x, cols) == 0 {
      if i >= r {
        forall c | 0 <= c < cols ensures m[i][c] == 0 || x[c] == 0 {
          if c < r {
            assert m[c][c] == 1 && m[i][c] == 0;
          }
        }
        DotZeros(m[i], x, cols);
      }
    }
  }

  // ---------- Reading the inverse off the augmented matrix ----------

  function Joined(a: Grid, b: Grid): (m: Grid)
    requires |a| == |b|
    ensures |m| == |a| && forall i | 0 <= i < |m| :: m[i] == a[i] + b[i]
  {
    seq(|a|, i requires 0 <= i < |a| => a[i] + b[i])
  }

  lemma {:induction false} DotJoined(a: Row, b: Row, x: Row, y: Row, k: nat)
    requires |a| == |x| && |b| == |y| && k <= |y|
    ensures Dot(a + b, x + y, |x| + k) == GalAdd(Dot(a, x, |x|), Dot(b, y, k))
  {
    hide GalAdd, GalMultiply;
    if k == 0 {
      DotSame(a + b, x + y, a, x, |x|);
      AddLaws(Dot(a, x, |x|), 0, 0);
    } else {
      DotJoined(a, b, x, y, k - 1);
      AddLaws(Dot(a, x, |x|), Dot(b, y, k - 1), GalMultiply(b[k - 1], y[k - 1]));
    }
  }

  // The augmented matrix [a | b] kills x + y just when a x = b y.
  lemma JoinedKills(a: Grid, b: Grid, x: Row, y: Row)
    requires |a| == |b|
    requires forall i | 0 <= i < |a| :: |a[i]| == |x| && |b[i]| == |y|
    ensures Kills(Joined(a, b), x + y) <==> Apply(a, x) == Apply(b, y)
  {
    hide Dot, GalAdd;
    var m := Joined(a, b);
    forall i | 0 <= i < |a|
      ensures Dot(m[i], x + y, |x + y|) == 0 <==> Apply(a, x)[i] == Apply(b, y)[i]
    {
      DotJoined(a[i], b[i], x, y, |y|);
      AddLaws(Dot(a[i], x, |x|), Dot(b[i], y, |y|), 0);
    }
    if Kills(m, x + y) {
      assert forall i | 0 <= i < |m| :: Dot(m[i], x + y, |x + y|) == 0;
    }
  }

  ghost predicate AreInverse(a: Grid, b: Grid, n: nat) {
    && IsGrid(a, n, n) && IsGrid(b, n, n)
    && Product(a, b, n) == Identity(n)
    && Product(b, a, n) == Identity(n)
  }

  // Elimination that turns [a | 1] into [1 | b] has found the two-sided inverse.
  lemma EliminationInverts(a: Grid, b: Grid, n: nat)
    requires IsGrid(a, n, n) && IsGrid(b, n, n)
    requires SameSolutions(Joined(a, Identity(n)), Joined(Identity(n), b), n, 2 * n)
    ensures AreInverse(a, b, n)
  {
    forall x: Row, y: Row | |x| == n && |y| == n
      ensures Apply(a, x) == y <==> Apply(b, y) == x
    {
      hide Dot, Apply, Kills;
      JoinedKills(a, Identity(n), x, y);
      JoinedKills(Identity(n), b, x, y);
      ApplyIdentity(x);
      ApplyIdentity(y);
      assert |x + y| == 2 * n;
    }
    forall x: Row | |x| == n
      ensures Apply(Product(b, a, n), x) == Apply(Identity(n), x)
      ensures Apply(Product(a, b, n), x) == Apply(Identity(n), x)
    {
      hide Dot, Product, Identity;
      ApplyProduct(b, a, x);
      ApplyProduct(a, b, x);
      ApplyIdentity(x);
    }
    SameAction(Product(b, a, n), Identity(n), n);
    SameAction(Product(a, b, n), Identity(n), n);
  }

  // A matrix that sends a nonzero vector to zero has no inverse.
  lemma KernelMeansSingular(a: Grid, b: Grid, x: Row)
    requires IsGrid(a, |x|, |x|) && x != Zeros(|x|)
    requires Apply(a, x) == Zeros(|x|)
    ensures !AreInverse(a, b, |x|)
  {
    hide Dot;
    var n := |x|;
    if AreInverse(a, b, n) {
      ApplyProduct(b, a, x);
      ApplyIdentity(x);
      ApplyZeros(b, n);
      assert false;
    }
  }

  lemma ApplyZeros(m: Grid, n: nat)
    requires IsGrid(m, |m|, n)
    ensures Apply(m, Zeros(n)) == Zeros(|m|)
  {
    forall i | 0 <= i < |m| ensures Dot(m[i], Zeros(n), n) == 0 {
      DotZeros(m[i], Zeros(n), n);
    }
  }

  // Inverses are unique.
  lemma InverseUnique(a: Grid, b: Grid, c: Grid, n: nat)
    requires AreInverse(a, b, n) && AreInverse(a, c, n)
    ensures b == c
  {
    forall x: Row | |x| == n ensures Apply(b, x) == Apply(c, x) {
      hide Dot, Apply, Product;
      ApplyProduct(b, a, Apply(c, x));
      ApplyProduct(a, c, x);
      ApplyIdentity(x);
      ApplyIdentity(Apply(c, x));
    }
    SameAction(b, c, n);
  }

  // b is the inverse of a, and there is no other.
  ghost predicate IsTheInverse(a: Grid, b: Grid, n: nat) {
    AreInverse(a, b, n) && forall c: Grid | AreInverse(a, c, n) :: c == b
  }

  lemma OnlyInverse(a: Grid, b: Grid, n: nat)
    requires AreInverse(a, b, n)
    ensures IsTheInverse(a, b, n)
  {
    hide AreInverse;
    forall c: Grid | AreInverse(a, c, n) ensures c == b {
      InverseUnique(a, c, b, n);
    }
  }
}
