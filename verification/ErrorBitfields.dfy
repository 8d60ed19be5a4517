// errorBitfield8 and errorBitfield: set, prepare and isNeeded of both widths. After prepare
// the bit looked up for a block says whether the block holds an erased position.
module ErrorBitfields {

  import opened BitXor
  import opened ErrorBits

  // ---------- Levels of one word each ----------

  function Put(ws: seq<seq<Word>>, j: nat, i: nat, w: Word): (r: seq<seq<Word>>)
    requires j < |ws| && i < |ws[j]|
    ensures |r| == |ws| && forall j' | 0 <= j' < |ws| :: |r[j']| == |ws[j']|
    ensures r[j][i] == w
    ensures forall j', i' | 0 <= j' < |ws| && 0 <= i' < |ws[j']| && (j' != j || i' != i) :: r[j'][i'] == ws[j'][i']
  {
    var row: seq<Word> := ws[j][i := w];
    ws[j := row]
  }

  ghost predicate Grid(ws: seq<seq<Word>>, levels: nat, words: nat) {
    |ws| == levels && forall j | 0 <= j < levels :: |ws[j]| == words
  }

  // Level j + 1 of column i, for each j below upto.
  ghost predicate Column(ws: seq<seq<Word>>, i: nat, upto: nat, t: nat, first: nat, marked: set<nat>)
    requires upto <= |ws| && forall j | 0 <= j < |ws| :: i < |ws[j]|
  {
    forall j: nat | j < upto :: Shows(ws[j][i], i, t, j + first, marked)
  }

  // The words from column i on still hold single positions.
  ghost predicate Unmerged(ws: seq<seq<Word>>, from: nat, marked: set<nat>)
    requires |ws| > 0
  {
    forall i: nat | from <= i < |ws[0]| :: Shows(ws[0][i], i, 0, 0, marked)
  }

  ghost predicate Columns(ws: seq<seq<Word>>, words: nat, upto: nat, levels: nat, t: nat, first: nat,
                          marked: set<nat>) {
    && levels <= |ws| && upto <= words && (forall j | 0 <= j < |ws| :: |ws[j]| == words)
    && forall i: nat | i < upto :: Column(ws, i, levels, t, first, marked)
  }

  lemma PutColumn(ws: seq<seq<Word>>, i: nat, j: nat, w: Word, t: nat, first: nat, marked: set<nat>)
    requires j < |ws| && (forall j' | 0 <= j' < |ws| :: i < |ws[j']|)
    requires Column(ws, i, j, t, first, marked) && Shows(w, i, t, j + first, marked)
    ensures Column(Put(ws, j, i, w), i, j + 1, t, first, marked)
  {
    hide Shows, Put;
  }

  lemma PutColumns(ws: seq<seq<Word>>, words: nat, i: nat, levels: nat, j: nat, w: Word, t: nat, first: nat,
                   marked: set<nat>)
    requires j < |ws| && i < words && Columns(ws, words, i, levels, t, first, marked)
    ensures Columns(Put(ws, j, i, w), words, i, levels, t, first, marked)
  {
    hide Shows, Put;
    forall i': nat | i' < i ensures Column(Put(ws, j, i, w), i', levels, t, first, marked) {
      assert Column(ws, i', levels, t, first, marked);
    }
  }

  lemma PutUnmerged(ws: seq<seq<Word>>, i: nat, j: nat, w: Word, marked: set<nat>)
    requires j < |ws| && i < |ws[j]| && Unmerged(ws, i + 1, marked)
    ensures Unmerged(Put(ws, j, i, w), i + 1, marked)
  {
    hide Shows, Put;
  }

  lemma ColumnsGrow(ws: seq<seq<Word>>, words: nat, i: nat, levels: nat, t: nat, first: nat, marked: set<nat>)
    requires i < words && Columns(ws, words, i, levels, t, first, marked) && Column(ws, i, levels, t, first, marked)
    ensures Columns(ws, words, i + 1, levels, t, first, marked)
  {
    hide Shows, Column;
    forall i': nat | i' < i + 1 ensures Column(ws, i', levels, t, first, marked) {
    }
  }

  // The first loop of prepare, the same in both widths: levels 1 to 5, inside each word.
  method WordMips(start: seq<seq<Word>>, words: nat, ghost marked: set<nat>) returns (ws: seq<seq<Word>>)
    requires |start| >= 5 && Grid(start, |start|, words) && Unmerged(start, 0, marked)
    ensures Grid(ws, |start|, words) && Columns(ws, words, words, 5, 0, 1, marked)
  {
    hide Shows, Put, Merged, HiMask, Column, Columns, Unmerged;
    ws := start;
    NoColumns(ws, words, 5, 0, 1, marked);
    for i := 0 to words
      invariant Grid(ws, |start|, words)
      invariant Columns(ws, words, i, 5, 0, 1, marked) && Unmerged(ws, i, marked)
    {
      UnmergedAt(ws, i, marked);
      var w := ws[0][i];
      MipStep(w, 0, i, 0, 0, marked);
      w := Merged(w, HiMask(0), 1);
      PutUnmerged(ws, i, 0, w, marked);
      PutColumns(ws, words, i, 5, 0, w, 0, 1, marked);
      NoColumn(ws, i, 0, 1, marked);
      PutColumn(ws, i, 0, w, 0, 1, marked);
      ws := Put(ws, 0, i, w);
      var bits := 2;
      for j := 1 to 5
        invariant bits == Pow2(j) && Shows(w, i, 0, j, marked)
        invariant Grid(ws, |start|, words) && Unmerged(ws, i + 1, marked)
        invariant Columns(ws, words, i, 5, 0, 1, marked) && Column(ws, i, j, 0, 1, marked)
      {
        MipStep(w, j, i, 0, j, marked);
        w := Merged(w, HiMask(j), bits);
        PutUnmerged(ws, i, j, w, marked);
        PutColumns(ws, words, i, 5, j, w, 0, 1, marked);
        PutColumn(ws, i, j, w, 0, 1, marked);
        ws := Put(ws, j, i, w);
        bits := bits * 2;
      }
      ColumnsGrow(ws, words, i, 5, 0, 1, marked);
    }
  }

  lemma NoColumns(ws: seq<seq<Word>>, words: nat, levels: nat, t: nat, first: nat, marked: set<nat>)
    requires levels <= |ws| && Grid(ws, |ws|, words)
    ensures Columns(ws, words, 0, levels, t, first, marked)
  {
  }

  lemma NoColumn(ws: seq<seq<Word>>, i: nat, t: nat, first: nat, marked: set<nat>)
    requires forall j | 0 <= j < |ws| :: i < |ws[j]|
    ensures Column(ws, i, 0, t, first, marked)
  {
  }

  lemma UnmergedAt(ws: seq<seq<Word>>, i: nat, marked: set<nat>)
    requires |ws| > 0 && i < |ws[0]| && Unmerged(ws, i, marked)
    ensures Shows(ws[0][i], i, 0, 0, marked) && Unmerged(ws, i + 1, marked)
  {
  }

  lemma MipStep(w: Word, j: nat, i: nat, t: nat, k: nat, marked: set<nat>)
    requires j < 5 && k == j && Shows(w, i, t, k, marked)
    ensures Shows(Merged(w, HiMask(j), Pow2(j)), i, t, k + 1, marked)
    ensures Pow2(0) == 1 && Pow2(1) == 2 && Pow2(j + 1) == 2 * Pow2(j)
  {
    hide Shows, Merged, HiMask;
    MergedJoins(w, j);
    ShowsStep(w, Merged(w, HiMask(j), Pow2(j)), i, t, k, marked);
  }

  // ---------- Marking positions ----------

  lemma HitZero(marked: set<nat>, i: nat)
    ensures Hit(marked, 0, i) <==> i in marked
  {
    hide Block;
    forall x | x in marked ensures Block(x, 0) == x {
      BlockHalves(x, 0);
    }
  }

  lemma BlockZero(i: nat)
    ensures Block(i, 0) == i
  {
    BlockHalves(i, 0);
  }

  // Words[0][i / 64] |= 1 << (i & 63)
  function Marked(ws: seq<seq<Word>>, i: nat): (r: seq<seq<Word>>)
    requires |ws| > 0 && i / 64 < |ws[0]|
  {
    Put(ws, 0, i / 64, Or(ws[0][i / 64], OneBit(i % 64)))
  }

  lemma MarkedUnmerged(ws: seq<seq<Word>>, i: nat, marked: set<nat>)
    requires |ws| > 0 && i / 64 < |ws[0]| && Unmerged(ws, 0, marked)
    ensures Unmerged(Marked(ws, i), 0, marked + {i})
  {
    hide Hit, Block, Put;
    var r := Marked(ws, i);
    forall c: nat | c < |ws[0]| ensures Shows(r[0][c], c, 0, 0, marked + {i}) {
      assert Shows(ws[0][c], c, 0, 0, marked);
      forall b: nat | b < 64 ensures r[0][c][b] <==> Hit(marked + {i}, 0, Block(64 * c + b, 0)) {
        BlockZero(64 * c + b);
        HitZero(marked + {i}, 64 * c + b);
        HitZero(marked, 64 * c + b);
        MarkedBit(ws, i, c, b);
      }
    }
  }

  lemma MarkedBit(ws: seq<seq<Word>>, i: nat, c: nat, b: nat)
    requires |ws| > 0 && i / 64 < |ws[0]| && c < |ws[0]| && b < 64
    ensures Marked(ws, i)[0][c][b] <==> ws[0][c][b] || i == 64 * c + b
  {
    hide Put;
  }

  lemma ZerosUnmerged(ws: seq<seq<Word>>)
    requires |ws| > 0 && forall c | 0 <= c < |ws[0]| :: ws[0][c] == Zero()
    ensures Unmerged(ws, 0, {})
  {
  }

  // ---------- Levels above one word ----------

  ghost predicate Level(ws: seq<seq<Word>>, j: nat, upto: nat, marked: set<nat>)
    requires j < |ws| && upto <= |ws[j]|
  {
    forall i: nat | i < upto :: Shows(ws[j][i], i, 0, j + 1, marked)
  }

  lemma PutLevel(ws: seq<seq<Word>>, j: nat, i: nat, w: Word, marked: set<nat>)
    requires j < |ws| && i < |ws[j]| && Level(ws, j, i, marked) && Shows(w, i, 0, j + 1, marked)
    ensures Level(Put(ws, j, i, w), j, i + 1, marked)
  {
    hide Put, Shows;
  }

  lemma KeepLevel(ws: seq<seq<Word>>, j: nat, upto: nat, j': nat, i: nat, w: Word, marked: set<nat>)
    requires j < |ws| && upto <= |ws[j]| && Level(ws, j, upto, marked)
    requires j' < |ws| && j' != j && i < |ws[j']|
    ensures Level(Put(ws, j', i, w), j, upto, marked)
  {
    hide Put, Shows;
  }

  lemma ColumnsLevel(ws: seq<seq<Word>>, words: nat, levels: nat, j: nat, marked: set<nat>)
    requires Columns(ws, words, words, levels, 0, 1, marked) && j < levels
    ensures Level(ws, j, words, marked)
  {
    hide Shows;
    forall i: nat | i < words ensures Shows(ws[j][i], i, 0, j + 1, marked) {
      assert Column(ws, i, levels, 0, 1, marked);
    }
  }

  lemma WordBlock(i: nat, b: nat)
    requires b < 64
    ensures Block(64 * i + b, 6) == i
  {
    WordBase(i);
    hide Pow2;
  }

  lemma WholeWord(w: Word, i: nat, t: nat, marked: set<nat>)
    requires Shows(w, i, t, 5, marked)
    ensures Shows(BothHalves(w), i, t, 6, marked)
    ensures forall b: nat | b < 64 :: BothHalves(w)[b] <==> Hit(marked, t + 6, i)
  {
    hide BothHalves, Hit, Block, JoinsSiblings;
    HalvesJoin(w);
    ShowsStep(w, BothHalves(w), i, t, 5, marked);
    forall b: nat | b < 64 ensures BothHalves(w)[b] <==> Hit(marked, t + 6, i) {
      WordBlock(i, b);
    }
  }

  lemma TwoWords(a: Word, b: Word, i: nat, marked: set<nat>)
    requires i % 2 == 0 && Shows(a, i, 0, 6, marked) && Shows(b, i + 1, 0, 6, marked)
    ensures Shows(Or(a, b), i, 0, 7, marked) && Shows(Or(a, b), i + 1, 0, 7, marked)
  {
    hide Hit, Block;
    HitStep(marked, 6, i / 2);
    forall c: nat | c < 64
      ensures Or(a, b)[c] <==> Hit(marked, 7, Block(64 * i + c, 7))
      ensures Or(a, b)[c] <==> Hit(marked, 7, Block(64 * (i + 1) + c, 7))
    {
      WordBlock(i, c);
      WordBlock(i + 1, c);
      BlockHalves(64 * i + c, 6);
      BlockHalves(64 * (i + 1) + c, 6);
    }
  }

  // ---------- 256 positions ----------

  // isNeeded, with the answer for positions that the transform never asks about left open.
  function Needed8(words: seq<seq<Word>>, mipLevel: int, bit: nat): bool
    requires |words| == 7 && forall j | 0 <= j < 7 :: |words[j]| == 4
  {
    if mipLevel >= 8 || mipLevel <= 0 || bit >= 256 then true
    else words[mipLevel - 1][bit / 64][bit % 64]
  }

  ghost predicate Ready8(words: seq<seq<Word>>, marked: set<nat>) {
    Grid(words, 7, 4) && forall j: nat | j < 7 :: Level(words, j, 4, marked)
  }

  // The bit looked up answers for the aligned block of 2^mipLevel positions around bit.
  lemma Needed8MeansHit(words: seq<seq<Word>>, marked: set<nat>, mipLevel: int, bit: nat)
    requires Ready8(words, marked) && bit < 256
    ensures 0 < mipLevel < 8 ==> (Needed8(words, mipLevel, bit) <==> Hit(marked, mipLevel, Block(bit, mipLevel)))
    ensures !(0 < mipLevel < 8) ==> Needed8(words, mipLevel, bit)
  {
    hide Hit, Block;
    if 0 < mipLevel < 8 {
      LevelAt(words, mipLevel - 1, 4, bit / 64, marked);
      assert 64 * (bit / 64) + bit % 64 == bit;
    }
  }

  // The loops of prepare, on 7 levels of 4 words.
  method Mips8(start: seq<seq<Word>>, ghost marked: set<nat>) returns (ws: seq<seq<Word>>)
    requires Grid(start, 7, 4) && Unmerged(start, 0, marked)
    ensures Ready8(ws, marked)
  {
    hide Shows, Put, Or, BothHalves, Column, Columns, Unmerged, Level;
    ws := WordMips(start, 4, marked);
    forall j: nat | j < 5 ensures Level(ws, j, 4, marked) {
      ColumnsLevel(ws, 4, 5, j, marked);
    }
    EmptyLevel(ws, 5, marked);
    for i := 0 to 4
      invariant Grid(ws, 7, 4) && Level(ws, 5, i, marked)
      invariant forall j: nat | j < 5 :: Level(ws, j, 4, marked)
    {
      var w := ws[4][i];
      LevelAt(ws, 4, 4, i, marked);
      WholeWord(w, i, 0, marked);
      w := BothHalves(w);
      PutLevel(ws, 5, i, w, marked);
      forall j: nat | j < 5 ensures Level(Put(ws, 5, i, w), j, 4, marked) {
        KeepLevel(ws, j, 4, 5, i, w, marked);
      }
      ws := Put(ws, 5, i, w);
    }
    EmptyLevel(ws, 6, marked);
    var i := 0;
    while i < 4
      invariant 0 <= i <= 4 && i % 2 == 0
      invariant Grid(ws, 7, 4) && Level(ws, 6, i, marked)
      invariant forall j: nat | j < 6 :: Level(ws, j, 4, marked)
    {
      var t := Or(ws[5][i], ws[5][i + 1]);
      LevelAt(ws, 5, 4, i, marked);
      LevelAt(ws, 5, 4, i + 1, marked);
      TwoWords(ws[5][i], ws[5][i + 1], i, marked);
      var once := Put(ws, 6, i, t);
      PutLevel(ws, 6, i, t, marked);
      PutLevel(once, 6, i + 1, t, marked);
      var both := Put(once, 6, i + 1, t);
      forall j: nat | j < 6 ensures Level(both, j, 4, marked) {
        KeepLevel(ws, j, 4, 6, i, t, marked);
        KeepLevel(once, j, 4, 6, i + 1, t, marked);
      }
      ws := both;
      i := i + 2;
    }
  }

  lemma WrappedPosition(i: nat)
    ensures i % 256 / 64 == i / 64 % 4 && i % 256 % 64 == i % 64
  {
    assert i == 256 * (i / 256) + i % 256;
  }

  class ErrorBitfield8 {
    var words: seq<seq<Word>>
    ghost var marked: set<nat>

    ghost predicate Raw()
      reads this
    {
      Grid(words, 7, 4) && Unmerged(words, 0, marked)
    }

    ghost predicate Ready()
      reads this
    {
      Ready8(words, marked)
    }

    constructor ()
      ensures Raw() && marked == {}
    {
      words := seq(7, _ => seq(4, _ => Zero()));
      marked := {};
      new;
      ZerosUnmerged(words);
    }

    // Positions past the last word wrap around.
    method Set(i: nat)
      requires Raw()
      modifies this
      ensures Raw() && marked == old(marked) + {i % 256}
    {
      hide Unmerged, Put, Or, OneBit;
      WrappedPosition(i);
      MarkedUnmerged(words, i % 256, marked);
      words := Put(words, 0, i / 64 % 4, Or(words[0][i / 64 % 4], OneBit(i % 64)));
      marked := marked + {i % 256};
    }

    method Prepare()
      requires Raw()
      modifies this
      ensures Ready() && marked == old(marked)
    {
      words := Mips8(words, marked);
    }
  }

  lemma EmptyLevel(ws: seq<seq<Word>>, j: nat, marked: set<nat>)
    requires j < |ws|
    ensures Level(ws, j, 0, marked)
  {
  }

  lemma LevelAt(ws: seq<seq<Word>>, j: nat, upto: nat, i: nat, marked: set<nat>)
    requires j < |ws| && i < upto <= |ws[j]| && Level(ws, j, upto, marked)
    ensures Shows(ws[j][i], i, 0, j + 1, marked)
  {
  }

  // ---------- 65536 positions ----------

  datatype Tiers = Tiers(words: seq<seq<Word>>, bigWords: seq<seq<Word>>, biggestWords: seq<Word>)

  ghost predicate TierGrid(e: Tiers) {
    Grid(e.words, 5, 1024) && Grid(e.bigWords, 6, 16) && |e.biggestWords| == 4
  }

  ghost predicate Ready16(e: Tiers, marked: set<nat>) {
    && TierGrid(e)
    && Columns(e.words, 1024, 1024, 5, 0, 1, marked)
    && Columns(e.bigWords, 16, 16, 6, 6, 0, marked)
    && forall j: nat | j < 4 :: Shows(e.biggestWords[j], 0, 12, j, marked)
  }

  // isNeededFn for the levels the transform uses.
  function Needed16(e: Tiers, mipLevel: nat, bit: nat): bool
    requires |e.words| == 5 && |e.bigWords| == 6 && |e.biggestWords| == 4
    requires (forall j | 0 <= j < 5 :: |e.words[j]| == 1024) && forall j | 0 <= j < 6 :: |e.bigWords[j]| == 16
  {
    if mipLevel >= 16 || mipLevel == 0 || bit >= 65536 then true
    else if mipLevel >= 12 then e.biggestWords[mipLevel - 12][bit / 4096]
    else if mipLevel >= 6 then e.bigWords[mipLevel - 6][bit / 64 / 64][bit / 64 % 64]
    else e.words[mipLevel - 1][bit / 64][bit % 64]
  }

  lemma ColumnsAt(ws: seq<seq<Word>>, words: nat, levels: nat, t: nat, first: nat, j: nat, i: nat, marked: set<nat>)
    requires Columns(ws, words, words, levels, t, first, marked) && j < levels && i < words
    ensures Shows(ws[j][i], i, t, j + first, marked)
  {
    hide Shows;
    assert Column(ws, i, levels, t, first, marked);
  }

  lemma {:induction false} BlockTwice(i: nat, s: nat, k: nat)
    ensures Block(Block(i, s), k) == Block(i, s + k)
  {
    hide Block;
    if k == 0 {
      BlockZero(Block(i, s));
    } else {
      BlockTwice(i, s, k - 1);
      BlockHalves(Block(i, s), k - 1);
      BlockHalves(i, s + k - 1);
    }
  }

  lemma TierUnits(i: nat)
    ensures Block(i, 6) == i / 64 && Block(i, 12) == i / 4096
  {
    WordBase(0);
    assert Pow2(12) == 4096;
  }

  // Each tier answers for the aligned block of 2^mipLevel positions around bit.
  lemma Needed16MeansHit(e: Tiers, marked: set<nat>, mipLevel: nat, bit: nat)
    requires Ready16(e, marked) && bit < 65536
    ensures 0 < mipLevel < 16 ==> (Needed16(e, mipLevel, bit) <==> Hit(marked, mipLevel, Block(bit, mipLevel)))
    ensures !(0 < mipLevel < 16) ==> Needed16(e, mipLevel, bit)
  {
    hide Hit, Block, Columns;
    TierUnits(bit);
    if 12 <= mipLevel < 16 {
      assert Shows(e.biggestWords[mipLevel - 12], 0, 12, mipLevel - 12, marked);
      BlockTwice(bit, 12, mipLevel - 12);
    } else if 6 <= mipLevel < 12 {
      ColumnsAt(e.bigWords, 16, 6, 6, 0, mipLevel - 6, bit / 64 / 64, marked);
      BlockTwice(bit, 6, mipLevel - 6);
      assert 64 * (bit / 64 / 64) + bit / 64 % 64 == bit / 64;
    } else if 0 < mipLevel < 6 {
      ColumnsAt(e.words, 1024, 5, 0, 1, mipLevel - 1, bit / 64, marked);
      assert 64 * (bit / 64) + bit % 64 == bit;
    }
  }

  // One bit for each of the 64 words of which src is the level below.
  ghost predicate Gathered(w: Word, i: nat, t: nat, upto: nat, marked: set<nat>) {
    forall b: nat | b < 64 :: w[b] <==> b < upto && Hit(marked, t, 64 * i + b)
  }

  // w_i |= (w | (w >> 32) | (w << 32)) & bit
  lemma GatherBit(w: Word, src: Word, i: nat, t: nat, b: nat, marked: set<nat>)
    requires t >= 6 && b < 64 && Gathered(w, i, t, b, marked) && Shows(src, 64 * i + b, t - 6, 5, marked)
    ensures Gathered(Or(w, And(BothHalves(src), OneBit(b))), i, t, b + 1, marked)
  {
    hide Hit, BothHalves, Shows;
    WholeWord(src, 64 * i + b, t - 6, marked);
  }

  lemma GatheredShows(w: Word, i: nat, t: nat, marked: set<nat>)
    requires Gathered(w, i, t, 64, marked)
    ensures Shows(w, i, t, 0, marked)
  {
    hide Hit, Block;
    forall b: nat | b < 64 ensures w[b] <==> Hit(marked, t, Block(64 * i + b, 0)) {
      BlockZero(64 * i + b);
    }
  }

  lemma NothingGathered(i: nat, t: nat, marked: set<nat>)
    ensures Gathered(Zero(), i, t, 0, marked)
  {
  }

  // The second loop of prepare: levels 6 to 11, one bit for each word of the first tier.
  method BigMips(words: seq<seq<Word>>, start: seq<seq<Word>>, ghost marked: set<nat>) returns (big: seq<seq<Word>>)
    requires Grid(words, 5, 1024) && Columns(words, 1024, 1024, 5, 0, 1, marked) && Grid(start, 6, 16)
    ensures Grid(big, 6, 16) && Columns(big, 16, 16, 6, 6, 0, marked)
  {
    hide Shows, Put, Or, And, Merged, HiMask, Column, Columns, BothHalves, OneBit, Gathered, Zero;
    big := start;
    NoColumns(big, 16, 6, 6, 0, marked);
    for i := 0 to 16
      invariant Grid(big, 6, 16) && Columns(big, 16, i, 6, 6, 0, marked)
    {
      var w := Zero();
      NothingGathered(i, 6, marked);
      for b := 0 to 64
        invariant Gathered(w, i, 6, b, marked)
      {
        ColumnsAt(words, 1024, 5, 0, 1, 4, 64 * i + b, marked);
        var src := words[4][i * 64..i * 64 + 64][b];
        GatherBit(w, src, i, 6, b, marked);
        w := Or(w, And(BothHalves(src), OneBit(b)));
      }
      GatheredShows(w, i, 6, marked);
      PutColumns(big, 16, i, 6, 0, w, 6, 0, marked);
      NoColumn(big, i, 6, 0, marked);
      PutColumn(big, i, 0, w, 6, 0, marked);
      big := Put(big, 0, i, w);
      var bits := 1;
      PowZero();
      for j := 1 to 6
        invariant bits == Pow2(j - 1) && Shows(w, i, 6, j - 1, marked)
        invariant Grid(big, 6, 16) && Columns(big, 16, i, 6, 6, 0, marked) && Column(big, i, j, 6, 0, marked)
      {
        MipStep(w, j - 1, i, 6, j - 1, marked);
        w := Merged(w, HiMask(j - 1), bits);
        PutColumns(big, 16, i, 6, j, w, 6, 0, marked);
        PutColumn(big, i, j, w, 6, 0, marked);
        big := Put(big, j, i, w);
        bits := bits * 2;
      }
      ColumnsGrow(big, 16, i, 6, 6, 0, marked);
    }
  }

  lemma NoneAbove(w: Word, marked: set<nat>)
    requires (forall x | x in marked :: x < 65536) && Gathered(w, 0, 12, 16, marked)
    ensures Gathered(w, 0, 12, 64, marked)
  {
    hide Block;
    forall x | x in marked ensures Block(x, 12) < 16 {
      TierUnits(x);
    }
  }

  // The rest of prepare: levels 12 to 15, in one word each.
  method BiggestMips(big: seq<seq<Word>>, ghost marked: set<nat>) returns (biggest: seq<Word>)
    requires Grid(big, 6, 16) && Columns(big, 16, 16, 6, 6, 0, marked) && forall x | x in marked :: x < 65536
    ensures |biggest| == 4 && forall j: nat | j < 4 :: Shows(biggest[j], 0, 12, j, marked)
  {
    hide Shows, Or, And, Merged, HiMask, Columns, BothHalves, OneBit, Gathered, Zero, Hit;
    var w := Zero();
    NothingGathered(0, 12, marked);
    for b := 0 to 16
      invariant Gathered(w, 0, 12, b, marked)
    {
      ColumnsAt(big, 16, 6, 6, 0, 5, b, marked);
      GatherBit(w, big[5][b], 0, 12, b, marked);
      w := Or(w, And(BothHalves(big[5][b]), OneBit(b)));
    }
    NoneAbove(w, marked);
    GatheredShows(w, 0, 12, marked);
    biggest := [w];
    var bits := 1;
    PowZero();
    for j := 1 to 4
      invariant bits == Pow2(j - 1) && Shows(w, 0, 12, j - 1, marked)
      invariant |biggest| == j && forall i: nat | i < j :: Shows(biggest[i], 0, 12, i, marked)
    {
      MipStep(w, j - 1, 0, 12, j - 1, marked);
      w := Merged(w, HiMask(j - 1), bits);
      biggest := biggest + [w];
      bits := bits * 2;
    }
  }

  class ErrorBitfield16 {
    var tiers: Tiers
    ghost var marked: set<nat>

    ghost predicate Raw()
      reads this
    {
      TierGrid(tiers) && Unmerged(tiers.words, 0, marked) && forall x | x in marked :: x < 65536
    }

    ghost predicate Ready()
      reads this
    {
      Ready16(tiers, marked)
    }

    constructor ()
      ensures Raw() && marked == {}
    {
      tiers := Tiers(seq(5, _ => seq(1024, _ => Zero())), seq(6, _ => seq(16, _ => Zero())), seq(4, _ => Zero()));
      marked := {};
      new;
      ZerosUnmerged(tiers.words);
    }

    method Set(i: nat)
      requires Raw() && i < 65536
      modifies this
      ensures Raw() && marked == old(marked) + {i}
    {
      hide Unmerged, Put, Or;
      MarkedUnmerged(tiers.words, i, marked);
      tiers := tiers.(words := Put(tiers.words, 0, i / 64, Or(tiers.words[0][i / 64], OneBit(i % 64))));
      marked := marked + {i};
    }

    method Prepare()
      requires Raw()
      modifies this
      ensures Ready() && marked == old(marked)
    {
      hide Unmerged, Columns, Shows;
      var words := WordMips(tiers.words, 1024, marked);
      var big := BigMips(words, tiers.bigWords, marked);
      var biggest := BiggestMips(big, marked);
      tiers := Tiers(words, big, biggest);
    }
  }
}
