// vandermonde (matrix.go) and the claim of its comment: which square selections of its rows
// can be inverted.
module Vandermonde {

  import opened Wrappers
  import opened Galois
  import opened LinearAlgebra
  import opened Matrix
  import opened Polynomials
  import opened Pigeonhole

  // byte(r)
  function ToByte(r: nat): Byte {
    r % 256
  }

  function Powers(a: Byte, cols: nat): (r: Row)
    ensures |r| == cols
  {
    seq(cols, c requires 0 <= c < cols => Power(a, c))
  }

  function VandermondeGrid(rows: nat, cols: nat): (m: Grid)
    ensures IsGrid(m, rows, cols)
  {
    seq(rows, r requires 0 <= r < rows => Powers(ToByte(r), cols))
  }

  method NewVandermonde(rows: int, cols: int) returns (r: Result<Rows, Error>)
    ensures rows <= 0 ==> r == Err(InvalidRowSize)
    ensures rows > 0 && cols <= 0 ==> r == Err(InvalidColSize)
    ensures rows > 0 && cols > 0 ==> r.Ok? && fresh(r.value) && r.value[..] == VandermondeGrid(rows, cols)
  {
    r := NewMatrix(rows, cols);
    if r.Ok? {
      hide Power;
      var result: Rows := r.value;
      for row := 0 to rows
        invariant result.Length == rows && fresh(result)
        invariant forall k | 0 <= k < rows ::
          if k < row then result[k] == Powers(ToByte(k), cols) else |result[k]| == cols
      {
        for c := 0 to cols
          invariant result.Length == rows && fresh(result) && |result[row]| == cols
          invariant forall k | 0 <= k < rows && k != row ::
            if k < row then result[k] == Powers(ToByte(k), cols) else |result[k]| == cols
          invariant forall d | 0 <= d < c :: result[row][d] == Power(ToByte(row), d)
        {
          var e := GalExp(row % 256, c);
          result[row] := result[row][c := e];
        }
        assert result[row] == Powers(ToByte(row), cols);
      }
      assert result[..] == VandermondeGrid(rows, cols);
    }
  }

  // Only the zero vector is sent to zero.
  ghost predicate Regular(m: Grid, n: nat)
    requires IsGrid(m, n, n)
  {
    forall x: Row | |x| == n && Apply(m, x) == Zeros(n) :: x == Zeros(n)
  }

  function Select(m: Grid, cols: nat, rows: seq<nat>): (s: Grid)
    requires IsGrid(m, |m|, cols) && forall i | 0 <= i < |rows| :: rows[i] < |m|
    ensures IsGrid(s, |rows|, cols)
  {
    seq(|rows|, i requires 0 <= i < |rows| => m[rows[i]])
  }

  // ---------- Rows of powers evaluate polynomials ----------

  lemma {:induction false} EvalAppend(p: Row, c: Byte, a: Byte)
    ensures Eval(p + [c], a) == GalAdd(Eval(p, a), GalMultiply(Power(a, |p|), c))
  {
    hide GalAdd, GalMultiply;
    if p == [] {
      assert p + [c] == [c];
      assert [c][1..] == [];
      MulLaws(a, 0, 0);
      MulLaws(c, 1, 0);
      AddLaws(c, 0, 0);
    } else {
      var t := p[1..];
      assert (p + [c])[1..] == t + [c];
      EvalAppend(t, c, a);
      Distributes(Eval(t, a), GalMultiply(Power(a, |t|), c), a);
      MulLaws(a, Power(a, |t|), c);
      AddLaws(p[0], GalMultiply(a, Eval(t, a)), GalMultiply(Power(a, |p|), c));
    }
  }

  lemma {:induction false} DotPowers(a: Byte, x: Row, n: nat)
    requires n <= |x|
    ensures Dot(Powers(a, |x|), x, n) == Eval(x[..n], a)
  {
    hide GalAdd, GalMultiply;
    if n != 0 {
      DotPowers(a, x, n - 1);
      assert x[..n] == x[..n - 1] + [x[n - 1]];
      EvalAppend(x[..n - 1], x[n - 1], a);
    }
  }

  lemma SelectedRow(rows: nat, idx: seq<nat>, x: Row, i: nat)
    requires (forall j | 0 <= j < |idx| :: idx[j] < rows) && |x| == |idx| && i < |idx|
    ensures Apply(Select(VandermondeGrid(rows, |idx|), |idx|, idx), x)[i] == Eval(x, ToByte(idx[i]))
  {
    hide Dot;
    DotPowers(ToByte(idx[i]), x, |x|);
    assert x[..|x|] == x;
  }

  // ---------- The claim ----------

  function Nodes(idx: seq<nat>): (s: seq<Byte>)
    ensures |s| == |idx|
  {
    seq(|idx|, i requires 0 <= i < |idx| => ToByte(idx[i]))
  }

  lemma DistinctNodesRegular(rows: nat, idx: seq<nat>)
    requires (forall j | 0 <= j < |idx| :: idx[j] < rows) && Distinct(Nodes(idx))
    ensures Regular(Select(VandermondeGrid(rows, |idx|), |idx|, idx), |idx|)
  {
    hide Select, VandermondeGrid, Apply, Eval;
    var n := |idx|;
    var s := Select(VandermondeGrid(rows, n), n, idx);
    forall x: Row | |x| == n && Apply(s, x) == Zeros(n) ensures x == Zeros(n) {
      forall i | 0 <= i < n ensures Eval(x, Nodes(idx)[i]) == 0 {
        SelectedRow(rows, idx, x, i);
      }
      RootsForceZero(x, Nodes(idx));
    }
  }

  lemma RepeatedNodeSingular(rows: nat, idx: seq<nat>, i: nat, j: nat)
    requires forall k | 0 <= k < |idx| :: idx[k] < rows
    requires i < j < |idx| && Nodes(idx)[i] == Nodes(idx)[j]
    ensures !Regular(Select(VandermondeGrid(rows, |idx|), |idx|, idx), |idx|)
  {
    hide Select, VandermondeGrid, Apply, Eval, WithRoots;
    var n := |idx|;
    var s := Select(VandermondeGrid(rows, n), n, idx);
    var nodes := Nodes(idx);
    var roots := nodes[..j] + nodes[j + 1..];
    var x := WithRoots(roots);
    forall k | 0 <= k < n ensures Apply(s, x)[k] == 0 {
      SelectedRow(rows, idx, x, k);
      WithRootsVanishes(roots, if k < j then k else if k == j then i else k - 1);
    }
    assert Apply(s, x) == Zeros(n);
    WithRootsMonic(roots);
    assert x[n - 1] != Zeros(n)[n - 1];
  }

  // A square selection of rows is regular exactly when the selected indices differ as bytes.
  lemma SelectionRegular(rows: nat, idx: seq<nat>)
    requires forall j | 0 <= j < |idx| :: idx[j] < rows
    ensures Regular(Select(VandermondeGrid(rows, |idx|), |idx|, idx), |idx|) <==> Distinct(Nodes(idx))
  {
    hide Regular, Select, VandermondeGrid, Nodes;
    if Distinct(Nodes(idx)) {
      DistinctNodesRegular(rows, idx);
    } else {
      var i, j :| 0 <= i < j < |idx| && Nodes(idx)[i] == Nodes(idx)[j];
      RepeatedNodeSingular(rows, idx, i, j);
    }
  }

  // With at most 256 rows every choice of distinct rows is regular.
  lemma DistinctRowsRegular(rows: nat, idx: seq<nat>)
    requires rows <= 256 && Distinct(idx) && forall j | 0 <= j < |idx| :: idx[j] < rows
    ensures Regular(Select(VandermondeGrid(rows, |idx|), |idx|, idx), |idx|)
  {
    hide Regular, Select, VandermondeGrid;
    DistinctNodesRegular(rows, idx);
  }
}
