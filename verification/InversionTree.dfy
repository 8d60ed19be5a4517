// inversion_tree.go: the trie that caches inverted matrices under increasing lists of row
// indices, as a finite map from those lists.
module InversionTree {

  import opened Wrappers
  import opened LinearAlgebra
  import opened Matrix

  type Key = seq<nat>

  // Strictly increasing indices in [lo, hi), as the caller collects them.
  ghost predicate IsKey(key: Key, lo: nat, hi: nat) {
    key != [] ==> lo <= key[0] < hi && IsKey(key[1..], key[0] + 1, hi)
  }

  // An entry of a node is the entry of the child its key leads to.
  ghost predicate Agree(entries: map<Key, Grid>, kids: seq<Option<map<Key, Grid>>>, parent: nat) {
    forall key: Key | key != [] ::
      if 0 <= key[0] - parent < |kids| && kids[key[0] - parent].Some?
      then
        && (key in entries <==> key[1..] in kids[key[0] - parent].value)
        && (key in entries ==> entries[key] == kids[key[0] - parent].value[key[1..]])
      else key !in entries
  }

  lemma AgreeAt(entries: map<Key, Grid>, kids: seq<Option<map<Key, Grid>>>, parent: nat, key: Key)
    requires Agree(entries, kids, parent) && key != [] && 0 <= key[0] - parent < |kids|
    ensures match kids[key[0] - parent]
            case None => key !in entries
            case Some(e) => (key in entries <==> key[1..] in e) && (key in entries ==> entries[key] == e[key[1..]])
  {
  }

  lemma AgreeNewKid(entries: map<Key, Grid>, kids: seq<Option<map<Key, Grid>>>, parent: nat, i: nat)
    requires Agree(entries, kids, parent) && i < |kids| && kids[i] == None
    ensures Agree(entries, kids[i := Some(map[])], parent)
  {
  }

  lemma AgreeOwn(entries: map<Key, Grid>, kids: seq<Option<map<Key, Grid>>>, parent: nat, m: Grid)
    requires Agree(entries, kids, parent)
    ensures Agree(entries[[] := m], kids, parent)
  {
  }

  // Adding a key to a node and what is left of it to the child keeps them in agreement.
  lemma AgreeInsert(entries: map<Key, Grid>, kids: seq<Option<map<Key, Grid>>>, parent: nat, key: Key, m: Grid)
    requires Agree(entries, kids, parent)
    requires key != [] && 0 <= key[0] - parent < |kids| && kids[key[0] - parent].Some?
    ensures var i := key[0] - parent;
            Agree(entries[key := m], kids[i := Some(kids[i].value[key[1..] := m])], parent)
  {
    forall k: Key | k != [] && k[0] == key[0] ensures k == key <==> k[1..] == key[1..] {
      assert k == [k[0]] + k[1..] && key == [key[0]] + key[1..];
    }
  }

  lemma KeyTail(key: Key, lo: nat, hi: nat)
    requires key != [] && IsKey(key, lo, hi)
    ensures lo <= key[0] < hi && IsKey(key[1..], key[0] + 1, hi)
  {
  }

  class Node {
    var matrix: Option<Grid>
    var children: array<Node?>
    ghost var Entries: map<Key, Grid>  // by what is left of the key at this node
    ghost var Kids: seq<Option<map<Key, Grid>>>  // what each child holds
    ghost var Repr: set<object>

    // children[i] stands for row index parent + i.
    ghost predicate Valid(parent: nat, shards: nat)
      reads this, Repr
      decreases Repr
    {
      && this in Repr && children in Repr
      && parent + children.Length >= shards
      && (forall i | 0 <= i < children.Length && children[i] != null ::
            && children[i] in Repr && children[i].Repr < Repr
            && this !in children[i].Repr && children !in children[i].Repr
            && children[i].Valid(parent + i + 1, shards))
      && (forall i, j | 0 <= i < children.Length && 0 <= j < children.Length && i != j
                        && children[i] != null && children[j] != null ::
            children[i].Repr !! children[j].Repr)
      && ([] in Entries <==> matrix.Some?)
      && (matrix.Some? ==> Entries[[]] == matrix.value)
      && |Kids| == children.Length
      && (forall i | 0 <= i < children.Length ::
            Kids[i] == if children[i] == null then None else Some(children[i].Entries))
      && Agree(Entries, Kids, parent)
    }

    constructor (size: nat, matrix: Option<Grid>)
      ensures fresh(Repr) && this.matrix == matrix && children.Length == size
      ensures Entries == if matrix.Some? then map[[] := matrix.value] else map[]
      ensures forall parent: nat, shards: nat | parent + size >= shards :: Valid(parent, shards)
    {
      this.matrix := matrix;
      children := new Node?[size](_ => null);
      Entries := if matrix.Some? then map[[] := matrix.value] else map[];
      Kids := seq(size, _ => None);
      new;
      Repr := {this, children};
    }

    lemma OwnEntry(parent: nat, shards: nat)
      requires Valid(parent, shards)
      ensures matrix == if [] in Entries then Some(Entries[[]]) else None
    {
    }

    // The child index of a row in range is in bounds, and the child holds the longer keys.
    lemma ChildEntry(parent: nat, shards: nat, key: Key)
      requires Valid(parent, shards) && key != [] && parent <= key[0] < shards
      ensures key[0] - parent < children.Length
      ensures var child := children[key[0] - parent];
              if child == null then key !in Entries
              else
                && child.Valid(key[0] + 1, shards)
                && (key in Entries <==> key[1..] in child.Entries)
                && (key in Entries ==> Entries[key] == child.Entries[key[1..]])
    {
      hide Agree;
      var i := key[0] - parent;
      AgreeAt(Entries, Kids, parent, key);
      assert Kids[i] == if children[i] == null then None else Some(children[i].Entries);
    }

    method Get(key: Key, parent: nat, ghost shards: nat) returns (r: Option<Grid>)
      requires Valid(parent, shards) && key != [] && IsKey(key, parent, shards)
      ensures r == if key in Entries then Some(Entries[key]) else None
      decreases key
    {
      hide Node.Valid;
      var firstIndex := key[0];
      ChildEntry(parent, shards, key);
      var node := children[firstIndex - parent];
      if node == null {
        return None;
      }
      if |key| > 1 {
        r := node.Get(key[1..], firstIndex + 1, shards);
      } else {
        assert key[1..] == [];
        node.OwnEntry(firstIndex + 1, shards);
        r := node.matrix;
      }
    }

    // The child for firstIndex, created empty if it is not there.
    method ChildFor(firstIndex: nat, parent: nat, shards: nat) returns (node: Node)
      requires Valid(parent, shards) && parent <= firstIndex < shards
      modifies this, children
      ensures Valid(parent, shards) && fresh(Repr - old(Repr))
      ensures Entries == old(Entries) && matrix == old(matrix) && children == old(children)
      ensures children[firstIndex - parent] == node
    {
      hide Agree;
      var i := firstIndex - parent;
      var child := children[i];
      if child != null {
        node := child;
      } else {
        AgreeNewKid(Entries, Kids, parent, i);
        node := new Node(shards - firstIndex, None);
        assert node.Valid(firstIndex + 1, shards);
        children[i] := node;
        Repr := Repr + node.Repr;
        Kids := Kids[i := Some(map[])];
      }
    }

    method SetMatrix(m: Grid, parent: nat, shards: nat)
      requires Valid(parent, shards)
      modifies this
      ensures Valid(parent, shards) && Repr == old(Repr)
      ensures Entries == old(Entries)[[] := m]
    {
      hide Agree;
      AgreeOwn(Entries, Kids, parent, m);
      matrix := Some(m);
      Entries := Entries[[] := m];
    }

    // Takes in what child i gained.
    ghost method Relink(i: nat, parent: nat, shards: nat, key: Key, m: Grid)
      requires this in Repr && children in Repr && parent + children.Length >= shards
      requires i < children.Length && children[i] != null
      requires forall k | 0 <= k < children.Length && children[k] != null ::
        && this !in children[k].Repr && children !in children[k].Repr
        && children[k].Valid(parent + k + 1, shards)
        && (k != i ==> children[k] in Repr && children[k].Repr < Repr)
      requires forall k, j | 0 <= k < children.Length && 0 <= j < children.Length && k != j
                             && children[k] != null && children[j] != null ::
        children[k].Repr !! children[j].Repr
      requires matrix.Some? <==> [] in Entries
      requires matrix.Some? ==> Entries[[]] == matrix.value
      requires |Kids| == children.Length && key != []
      requires forall k | 0 <= k < children.Length && k != i ::
        Kids[k] == if children[k] == null then None else Some(children[k].Entries)
      requires Agree(Entries[key := m], Kids[i := Some(children[i].Entries)], parent)
      modifies this`Repr, this`Entries, this`Kids
      ensures Valid(parent, shards)
      ensures Repr == old(Repr) + children[i].Repr && Entries == old(Entries)[key := m]
    {
      hide Agree;
      Repr, Entries, Kids := Repr + children[i].Repr, Entries[key := m], Kids[i := Some(children[i].Entries)];
      forall k | 0 <= k < children.Length && children[k] != null
        ensures children[k].Repr == old(children[k].Repr) && children[k].Entries == old(children[k].Entries)
        ensures children[k].Valid(parent + k + 1, shards)
      {
        assert old(children[k].Valid(parent + k + 1, shards));
      }
    }

    method Insert(key: Key, m: Grid, shards: nat, parent: nat)
      requires Valid(parent, shards) && key != [] && IsKey(key, parent, shards)
      modifies Repr
      ensures Valid(parent, shards) && fresh(Repr - old(Repr))
      ensures Entries == old(Entries)[key := m]
      decreases |key|, 0
    {
      hide Agree, IsKey;
      KeyTail(key, parent, shards);
      var firstIndex := key[0];
      var i := firstIndex - parent;
      var node := ChildFor(firstIndex, parent, shards);
      AgreeInsert(Entries, Kids, parent, key, m);
      StoreBelow(i, key[1..], m, shards, parent);
      Relink(i, parent, shards, key, m);
    }

    // The child at i takes the matrix; this node and the other children keep what they have.
    method StoreBelow(i: nat, rest: Key, m: Grid, shards: nat, parent: nat)
      requires Valid(parent, shards) && i < children.Length && children[i] != null
      requires IsKey(rest, parent + i + 1, shards)
      modifies children[i].Repr
      ensures children == old(children) && matrix == old(matrix) && Repr == old(Repr)
      ensures children[..] == old(children[..])
      ensures Entries == old(Entries) && Kids == old(Kids)
      ensures forall k | 0 <= k < children.Length && children[k] != null ::
        && this !in children[k].Repr && children !in children[k].Repr && children[k].Valid(parent + k + 1, shards)
        && (k != i ==> children[k].Repr == old(children[k].Repr) && children[k].Entries == old(children[k].Entries)
                       && children[k].Repr !! children[i].Repr)
      ensures children[i].Entries == old(children[i].Entries)[rest := m]
      ensures fresh(children[i].Repr - old(children[i].Repr))
      decreases |rest|, 2
    {
      hide Agree, IsKey;
      children[i].Store(rest, m, shards, parent + i + 1);
      forall k | 0 <= k < children.Length && children[k] != null && k != i
        ensures children[k].Repr == old(children[k].Repr) && children[k].Entries == old(children[k].Entries)
        ensures children[k].Repr !! children[i].Repr && children[k].Valid(parent + k + 1, shards)
      {
        assert old(children[k].Repr !! children[i].Repr);
      }
    }

    // With no index left the matrix belongs to this node.
    method Store(rest: Key, m: Grid, shards: nat, parent: nat)
      requires Valid(parent, shards) && IsKey(rest, parent, shards)
      modifies Repr
      ensures Valid(parent, shards) && fresh(Repr - old(Repr))
      ensures Entries == old(Entries)[rest := m]
      decreases |rest|, 1
    {
      hide Agree;
      if |rest| > 0 {
        Insert(rest, m, shards, parent);
      } else {
        SetMatrix(m, parent, shards);
      }
    }
  }

  // ---------- The tree ----------

  class Tree {
    const root: Node
    const shards: nat

    ghost predicate Valid()
      reads this, root, root.Repr
    {
      root.Valid(0, shards)
    }

    ghost function Contents(): map<Key, Grid>
      reads this, root
    {
      root.Entries
    }

    // newInversionTree: the empty list of invalid rows has the identity.
    constructor (dataShards: nat, parityShards: nat)
      ensures Valid() && fresh(root) && fresh(root.Repr) && shards == dataShards + parityShards
      ensures Contents() == map[[] := Identity(dataShards)]
    {
      shards := dataShards + parityShards;
      root := new Node(dataShards + parityShards, Some(Identity(dataShards)));
    }
  }

  // Both operations on a tree that may be nil, as it is in a codec without an inversion cache.
  method GetInvertedMatrix(t: Tree?, invalidIndices: Key) returns (r: Option<Grid>)
    requires t != null ==> t.Valid() && IsKey(invalidIndices, 0, t.shards) && [] in t.Contents()
    ensures t == null ==> r == None
    ensures t != null ==>
      r == if invalidIndices in t.Contents() then Some(t.Contents()[invalidIndices]) else None
  {
    if t == null {
      return None;
    }
    if |invalidIndices| == 0 {
      return t.root.matrix;
    }
    r := t.root.Get(invalidIndices, 0, t.shards);
  }

  method InsertInvertedMatrix(t: Tree?, invalidIndices: Key, m: Grid) returns (r: Result<(), Error>)
    requires t != null ==> t.Valid() && IsKey(invalidIndices, 0, t.shards) && m != []
    modifies if t != null then t.root.Repr else {}
    ensures t == null ==> r == Ok(())
    ensures t != null ==>
      && t.Valid() && fresh(t.root.Repr - old(t.root.Repr))
      && r == (if invalidIndices == [] then Err(AlreadySet) else if |m| != |m[0]| then Err(NotSquare) else Ok(()))
      && t.Contents() == if r.Ok? then old(t.Contents())[invalidIndices := m] else old(t.Contents())
  {
    if t == null {
      return Ok(());
    }
    if |invalidIndices| == 0 {
      return Err(AlreadySet);
    }
    if |m| != |m[0]| {
      return Err(NotSquare);
    }
    t.root.Insert(invalidIndices, m, t.shards, 0);
    return Ok(());
  }

  // ---------- Whole runs ----------

  datatype Call = Get(key: Key) | Insert(key: Key, m: Grid)

  // What a map from keys to matrices answers to the lookups of a run.
  function Answers(contents: map<Key, Grid>, calls: seq<Call>): seq<Option<Grid>>
    decreases |calls|
  {
    if calls == [] then []
    else match calls[0]
      case Get(key) => [if key in contents then Some(contents[key]) else None] + Answers(contents, calls[1..])
      case Insert(key, m) =>
        Answers(if key == [] || |m| == 0 || |m| != |m[0]| then contents else contents[key := m], calls[1..])
  }

  ghost predicate CallOk(call: Call, shards: nat) {
    IsKey(call.key, 0, shards) && (call.Insert? ==> call.m != [])
  }

  // The contents after one call, and the answer it adds.
  function AfterCall(contents: map<Key, Grid>, call: Call): map<Key, Grid> {
    if call.Insert? && call.key != [] && |call.m| != 0 && |call.m| == |call.m[0]| then contents[call.key := call.m]
    else contents
  }

  function AnswerOf(contents: map<Key, Grid>, call: Call): seq<Option<Grid>> {
    if call.Insert? then [] else [if call.key in contents then Some(contents[call.key]) else None]
  }

  lemma AnswersStep(contents: map<Key, Grid>, calls: seq<Call>, i: nat)
    requires i < |calls|
    ensures Answers(contents, calls[i..])
         == AnswerOf(contents, calls[i]) + Answers(AfterCall(contents, calls[i]), calls[i + 1..])
  {
    assert calls[i..][0] == calls[i] && calls[i..][1..] == calls[i + 1..];
  }

  // The tree answers every run of calls as the map does.
  method Run(tree: Tree, calls: seq<Call>) returns (answers: seq<Option<Grid>>)
    requires tree.Valid() && [] in tree.Contents()
    requires forall call | call in calls :: CallOk(call, tree.shards)
    modifies tree.root.Repr
    ensures tree.Valid()
    ensures answers == Answers(old(tree.Contents()), calls)
  {
    hide Node.Valid, Answers;
    answers := [];
    ghost var goal := Answers(tree.Contents(), calls);
    assert calls[0..] == calls;
    for i := 0 to |calls|
      invariant tree.Valid() && fresh(tree.root.Repr - old(tree.root.Repr)) && [] in tree.Contents()
      invariant answers + Answers(tree.Contents(), calls[i..]) == goal
    {
      assert calls[i] in calls;
      ghost var contents := tree.Contents();
      AnswersStep(contents, calls, i);
      var one := Perform(tree, calls[i]);
      Rejoin(answers, one, Answers(tree.Contents(), calls[i + 1..]));
      answers := answers + one;
    }
    NoCalls(tree.Contents(), calls);
  }

  lemma Rejoin<T>(a: seq<T>, b: seq<T>, c: seq<T>)
    ensures a + (b + c) == (a + b) + c
  {
  }

  lemma NoCalls(contents: map<Key, Grid>, calls: seq<Call>)
    ensures Answers(contents, calls[|calls|..]) == []
  {
  }

  // One call.
  method Perform(tree: Tree, call: Call) returns (answer: seq<Option<Grid>>)
    requires tree.Valid() && [] in tree.Contents() && CallOk(call, tree.shards)
    modifies tree.root.Repr
    ensures tree.Valid() && fresh(tree.root.Repr - old(tree.root.Repr)) && [] in tree.Contents()
    ensures answer == AnswerOf(old(tree.Contents()), call)
    ensures tree.Contents() == AfterCall(old(tree.Contents()), call)
  {
    hide Node.Valid;
    match call {
      case Get(key) =>
        var a := GetInvertedMatrix(tree, key);
        answer := [a];
      case Insert(key, m) =>
        var _ := InsertInvertedMatrix(tree, key, m);
        answer := [];
    }
  }
}
