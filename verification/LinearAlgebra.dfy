// Rows, sums of products and solution sets over the bytes of galois.go: the reference
// against which the loops of matrix.go are proved.
module LinearAlgebra {

  import opened Galois

  type Row = seq<Byte>
  type Grid = seq<Row>

  ghost predicate IsGrid(m: Grid, rows: nat, cols: nat) {
    |m| == rows && forall i | 0 <= i < rows :: |m[i]| == cols
  }

  // The sum of the first n products of entries.
  function Dot(u: Row, v: Row, n: nat): Byte
    requires n <= |u| && n <= |v|
  {
    if n == 0 then 0 else GalAdd(Dot(u, v, n - 1), GalMultiply(u[n - 1], v[n - 1]))
  }

  function Scaled(u: Row, s: Byte): (r: Row)
    ensures |r| == |u|
  {
    seq(|u|, c requires 0 <= c < |u| => GalMultiply(u[c], s))
  }

  // u + s * w
  function AddScaled(u: Row, s: Byte, w: Row): (r: Row)
    requires |u| == |w|
    ensures |r| == |u|
  {
    seq(|u|, c requires 0 <= c < |u| => GalAdd(u[c], GalMultiply(s, w[c])))
  }

  function Zeros(n: nat): (r: Row)
    ensures |r| == n
  {
    seq(n, _ => 0)
  }

  function Unit(n: nat, k: nat): (r: Row)
    ensures |r| == n
  {
    seq(n, c => if c == k then 1 else 0)
  }

  // ---------- Sums of products ----------

  lemma {:induction false} DotZeros(u: Row, v: Row, n: nat)
    requires n <= |u| && n <= |v|
    requires forall i | 0 <= i < n :: u[i] == 0 || v[i] == 0
    ensures Dot(u, v, n) == 0
  {
    hide GalAdd, GalMultiply;
    if n != 0 {
      DotZeros(u, v, n - 1);
      MulLaws(u[n - 1], v[n - 1], 0);
      AddLaws(0, 0, 0);
    }
  }

  // Only the first k terms count when the rest vanish.
  lemma {:induction false} DotPrefix(u: Row, v: Row, k: nat, n: nat)
    requires k <= n <= |u| && n <= |v|
    requires forall i | k <= i < n :: u[i] == 0 || v[i] == 0
    ensures Dot(u, v, n) == Dot(u, v, k)
  {
    hide GalAdd, GalMultiply;
    if k != n {
      DotPrefix(u, v, k, n - 1);
      MulLaws(u[n - 1], v[n - 1], 0);
      AddLaws(Dot(u, v, n - 1), 0, 0);
    }
  }

  // The sums depend on the entries they read alone.
  lemma {:induction false} DotSame(u: Row, v: Row, u': Row, v': Row, n: nat)
    requires n <= |u| && n <= |v| && n <= |u'| && n <= |v'|
    requires forall i | 0 <= i < n :: u[i] == u'[i] && v[i] == v'[i]
    ensures Dot(u, v, n) == Dot(u', v', n)
  {
    hide GalAdd, GalMultiply;
    if n != 0 {
      DotSame(u, v, u', v', n - 1);
    }
  }

  lemma {:induction false} DotCommutes(u: Row, v: Row, n: nat)
    requires n <= |u| && n <= |v|
    ensures Dot(u, v, n) == Dot(v, u, n)
  {
    hide GalAdd, GalMultiply;
    if n != 0 {
      DotCommutes(u, v, n - 1);
      MulLaws(u[n - 1], v[n - 1], 0);
    }
  }

  lemma {:induction false} DotScaled(u: Row, s: Byte, v: Row, n: nat)
    requires n <= |u| && n <= |v|
    ensures Dot(Scaled(u, s), v, n) == GalMultiply(s, Dot(u, v, n))
  {
    hide GalAdd, GalMultiply;
    if n == 0 {
      MulLaws(s, 0, 0);
    } else {
      var a, b, d := u[n - 1], v[n - 1], Dot(u, v, n - 1);
      DotScaled(u, s, v, n - 1);
      MulLaws(a, s, 0);
      MulLaws(s, a, b);
      Distributes(d, GalMultiply(a, b), s);
    }
  }

  lemma {:induction false} DotAddScaled(u: Row, s: Byte, w: Row, v: Row, n: nat)
    requires n <= |u| && |u| == |w| && n <= |v|
    ensures Dot(AddScaled(u, s, w), v, n) == GalAdd(Dot(u, v, n), GalMultiply(s, Dot(w, v, n)))
  {
    hide GalAdd, GalMultiply;
    if n == 0 {
      MulLaws(s, 0, 0);
      AddLaws(0, 0, 0);
    } else {
      var a, b, c := u[n - 1], v[n - 1], w[n - 1];
      var d, e := Dot(u, v, n - 1), Dot(w, v, n - 1);
      DotAddScaled(u, s, w, v, n - 1);
      Distributes(a, GalMultiply(s, c), b);
      MulLaws(s, c, b);
      Distributes(e, GalMultiply(c, b), s);
      AddExchange(d, GalMultiply(s, e), GalMultiply(a, b), GalMultiply(s, GalMultiply(c, b)));
    }
  }

  lemma AddExchange(a: Byte, b: Byte, c: Byte, d: Byte)
    ensures GalAdd(GalAdd(a, b), GalAdd(c, d)) == GalAdd(GalAdd(a, c), GalAdd(b, d))
  {
    hide GalAdd;
    AddLaws(a, b, GalAdd(c, d));
    AddLaws(b, c, d);
    AddLaws(c, b, d);
    AddLaws(a, c, GalAdd(b, d));
  }

  lemma {:induction false} DotUnit(u: Row, k: nat, n: nat)
    requires n <= |u| && k < n
    ensures Dot(u, Unit(|u|, k), n) == u[k]
    ensures Dot(Unit(|u|, k), u, n) == u[k]
  {
    hide GalAdd, GalMultiply;
    var e := Unit(|u|, k);
    DotPrefix(u, e, k + 1, n);
    DotZeros(u, e, k);
    MulLaws(u[k], 1, 0);
    AddLaws(u[k], 0, 0);
    DotCommutes(u, e, n);
  }

  // ---------- Matrices acting on columns ----------

  function Apply(m: Grid, x: Row): (r: Row)
    requires forall i | 0 <= i < |m| :: |m[i]| == |x|
    ensures |r| == |m|
  {
    seq(|m|, i requires 0 <= i < |m| => Dot(m[i], x, |x|))
  }

  function Column(m: Grid, cols: nat, c: nat): (r: Row)
    requires c < cols && forall i | 0 <= i < |m| :: |m[i]| == cols
    ensures |r| == |m|
  {
    seq(|m|, i requires 0 <= i < |m| => m[i][c])
  }

  function Identity(n: nat): (m: Grid)
    ensures |m| == n && forall i | 0 <= i < n :: |m[i]| == n
  {
    seq(n, i requires 0 <= i < n => Unit(n, i))
  }

  // u times the rows of m: the combination of the rows with the entries of u as coefficients.
  function Combine(u: Row, m: Grid, cols: nat, n: nat): (r: Row)
    requires n <= |u| && n <= |m| && forall i | 0 <= i < |m| :: |m[i]| == cols
    ensures |r| == cols
  {
    if n == 0 then Zeros(cols) else AddScaled(Combine(u, m, cols, n - 1), u[n - 1], m[n - 1])
  }

  function Product(a: Grid, b: Grid, cols: nat): (p: Grid)
    requires forall i | 0 <= i < |a| :: |a[i]| == |b|
    requires forall i | 0 <= i < |b| :: |b[i]| == cols
    ensures |p| == |a| && forall i | 0 <= i < |p| :: |p[i]| == cols
  {
    seq(|a|, i requires 0 <= i < |a| => Combine(a[i], b, cols, |b|))
  }

  lemma {:induction false} CombineEntry(u: Row, m: Grid, cols: nat, n: nat, c: nat)
    requires n <= |u| && n <= |m| && c < cols && forall i | 0 <= i < |m| :: |m[i]| == cols
    ensures Combine(u, m, cols, n)[c] == Dot(u, Column(m, cols, c), n)
  {
    hide GalAdd, GalMultiply;
    if n != 0 {
      CombineEntry(u, m, cols, n - 1, c);
    }
  }

  lemma {:induction false} DotCombine(u: Row, m: Grid, x: Row, n: nat)
    requires n <= |u| && n <= |m| && forall i | 0 <= i < |m| :: |m[i]| == |x|
    ensures Dot(Combine(u, m, |x|, n), x, |x|) == Dot(u, Apply(m, x), n)
  {
    hide GalAdd, GalMultiply;
    if n == 0 {
      DotZeros(Zeros(|x|), x, |x|);
    } else {
      DotCombine(u, m, x, n - 1);
      DotAddScaled(Combine(u, m, |x|, n - 1), u[n - 1], m[n - 1], x, |x|);
    }
  }

  // A product acts as its factors do one after the other.
  lemma ApplyProduct(a: Grid, b: Grid, x: Row)
    requires forall i | 0 <= i < |a| :: |a[i]| == |b|
    requires forall i | 0 <= i < |b| :: |b[i]| == |x|
    ensures Apply(Product(a, b, |x|), x) == Apply(a, Apply(b, x))
  {
    hide GalAdd, GalMultiply, Dot, Combine;
    forall i | 0 <= i < |a|
      ensures Apply(Product(a, b, |x|), x)[i] == Apply(a, Apply(b, x))[i]
    {
      DotCombine(a[i], b, x, |b|);
    }
  }

  lemma ApplyIdentity(x: Row)
    ensures Apply(Identity(|x|), x) == x
  {
    hide Dot;
    forall i | 0 <= i < |x| ensures Apply(Identity(|x|), x)[i] == x[i] {
      DotUnit(x, i, |x|);
    }
  }

  lemma ApplyUnit(m: Grid, n: nat, k: nat)
    requires IsGrid(m, |m|, n) && k < n
    ensures Apply(m, Unit(n, k)) == Column(m, n, k)
  {
    hide Dot;
    forall i | 0 <= i < |m| ensures Apply(m, Unit(n, k))[i] == m[i][k] {
      DotUnit(m[i], k, n);
    }
  }

  // Matrices that act alike are equal.
  lemma SameAction(a: Grid, b: Grid, n: nat)
    requires IsGrid(a, |a|, n) && IsGrid(b, |a|, n)
    requires forall x: Row | |x| == n :: Apply(a, x) == Apply(b, x)
    ensures a == b
  {
    hide Dot;
    forall i | 0 <= i < |a| ensures a[i] == b[i] {
      forall c | 0 <= c < n ensures a[i][c] == b[i][c] {
        ApplyUnit(a, n, c);
        ApplyUnit(b, n, c);
        assert Apply(a, Unit(n, c)) == Apply(b, Unit(n, c));
        assert Column(a, n, c)[i] == Column(b, n, c)[i];
      }
    }
  }
}
