// Shards as byte strings: sliceXor, memclr and the laws of exclusive or on whole shards.
module Shards {

  import opened Galois

  type Shard = seq<Byte>

  // sliceXor on shards of one length.
  function Xor2(a: Shard, b: Shard): (r: Shard)
    ensures |r| == |a|
  {
    if |a| == |b| then seq(|a|, i requires 0 <= i < |a| && |a| == |b| => GalAdd(a[i], b[i])) else a
  }

  // memclr
  function Clear(n: nat): (r: Shard)
    ensures |r| == n
  {
    seq(n, _ => 0)
  }

  ghost predicate Uniform(w: seq<Shard>, size: nat) {
    forall i | 0 <= i < |w| :: |w[i]| == size
  }

  // Every shard is as long as it was.
  ghost predicate SameSizes(u: seq<Shard>, v: seq<Shard>) {
    |u| == |v| && forall i | 0 <= i < |u| :: |u[i]| == |v[i]|
  }

  lemma Xor2Laws(a: Shard, b: Shard, c: Shard)
    requires |a| == |b| == |c|
    ensures Xor2(a, b) == Xor2(b, a)
    ensures Xor2(Xor2(a, b), c) == Xor2(a, Xor2(b, c))
    ensures Xor2(a, a) == Clear(|a|)
    ensures Xor2(a, Clear(|a|)) == a && Xor2(Clear(|a|), a) == a
  {
    hide GalAdd;
    forall i | 0 <= i < |a|
      ensures Xor2(a, b)[i] == Xor2(b, a)[i]
      ensures Xor2(Xor2(a, b), c)[i] == Xor2(a, Xor2(b, c))[i]
      ensures Xor2(a, a)[i] == 0
      ensures Xor2(a, Clear(|a|))[i] == a[i] && Xor2(Clear(|a|), a)[i] == a[i]
    {
      AddLaws(a[i], b[i], c[i]);
    }
  }

  // Combining with the same shard twice changes nothing.
  lemma Xor2Cancels(a: Shard, b: Shard)
    requires |a| == |b|
    ensures Xor2(Xor2(a, b), b) == a
    ensures Xor2(Xor2(b, a), b) == a
  {
    hide Xor2;
    Xor2Laws(a, b, b);
    Xor2Laws(b, a, b);
    Xor2Laws(b, b, a);
  }

  lemma Xor2Exchange(a: Shard, b: Shard, c: Shard, d: Shard)
    requires |a| == |b| == |c| == |d|
    ensures Xor2(Xor2(a, b), Xor2(c, d)) == Xor2(Xor2(a, c), Xor2(b, d))
  {
    hide Xor2;
    Xor2Laws(a, b, Xor2(c, d));
    Xor2Laws(b, c, d);
    Xor2Laws(c, b, d);
    Xor2Laws(a, c, Xor2(b, d));
  }

  lemma Halves<T>(p: seq<T>, q: seq<T>)
    ensures (p + q)[..|p|] == p && (p + q)[|p|..] == q
  {
  }

  lemma UniformJoin(p: seq<Shard>, q: seq<Shard>, size: nat)
    requires Uniform(p, size) && Uniform(q, size)
    ensures Uniform(p + q, size)
  {
  }

  lemma UniformSplit(w: seq<Shard>, h: nat, size: nat)
    requires h <= |w| && Uniform(w, size)
    ensures Uniform(w[..h], size) && Uniform(w[h..], size)
  {
  }

  // slicesXor: shard by shard.
  function XorRows(u: seq<Shard>, v: seq<Shard>): (r: seq<Shard>)
    requires |u| == |v|
    ensures |r| == |u|
  {
    seq(|u|, i requires 0 <= i < |u| && |u| == |v| => Xor2(u[i], v[i]))
  }

  function ClearRows(n: nat, size: nat): (r: seq<Shard>)
    ensures |r| == n
  {
    seq(n, _ => Clear(size))
  }

  lemma ClearRowsUniform(n: nat, size: nat)
    ensures Uniform(ClearRows(n, size), size)
  {
  }

  lemma XorRowsUniform(u: seq<Shard>, v: seq<Shard>, size: nat)
    requires |u| == |v| && Uniform(u, size)
    ensures Uniform(XorRows(u, v), size)
  {
    hide Xor2;
  }

  lemma XorRowsSplit(u: seq<Shard>, v: seq<Shard>, h: nat)
    requires |u| == |v| && h <= |u|
    ensures XorRows(u, v)[..h] == XorRows(u[..h], v[..h])
    ensures XorRows(u, v)[h..] == XorRows(u[h..], v[h..])
  {
    hide Xor2;
  }

  lemma XorRowsJoin(u: seq<Shard>, v: seq<Shard>, u': seq<Shard>, v': seq<Shard>)
    requires |u| == |v| && |u'| == |v'|
    ensures XorRows(u + u', v + v') == XorRows(u, v) + XorRows(u', v')
  {
    hide Xor2;
  }

  lemma XorRowsSelf(u: seq<Shard>, size: nat)
    requires Uniform(u, size)
    ensures XorRows(u, u) == ClearRows(|u|, size)
  {
    hide Xor2;
    forall i | 0 <= i < |u| ensures XorRows(u, u)[i] == Clear(size) {
      Xor2Laws(u[i], u[i], u[i]);
    }
  }
}
