/** Merkle roots and branches: src/bitcoin/merkle.cpp, over any hash D in place of SHA-256d. */
module Merkle {
  import opened Arith
  import opened Bytes

  /** doubleSha256 */
  type Hasher = seq<Byte> -> Hash256

  function Both(a: Hash256, b: Hash256): (ab: seq<Byte>)
    ensures |ab| == 64 && ab[..32] == a && ab[32..] == b
  {
    a + b
  }

  /** doubleSha256Concat */
  function PairHash(D: Hasher, a: Hash256, b: Hash256): Hash256 { D(Both(a, b)) }

  /** An odd level is completed with a copy of its last hash. */
  function Even(level: seq<Hash256>): (l: seq<Hash256>)
    ensures |l| % 2 == 0 && |level| <= |l| <= |level| + 1
  {
    if |level| % 2 != 0 then level + [level[|level| - 1]] else level
  }

  function NextLevel(D: Hasher, level: seq<Hash256>): (next: seq<Hash256>)
    ensures |next| == (|level| + 1) / 2
  {
    var l := Even(level);
    seq(|l| / 2, i requires 0 <= i < |l| / 2 => PairHash(D, l[2 * i], l[2 * i + 1]))
  }

  lemma NextAt(D: Hasher, level: seq<Hash256>, i: nat)
    requires i < |NextLevel(D, level)|
    ensures NextLevel(D, level)[i] == PairHash(D, Even(level)[2 * i], Even(level)[2 * i + 1])
  {
  }

  /** The definition of the root by whole levels. */
  function Root(D: Hasher, leaves: seq<Hash256>): Hash256
    decreases |leaves|
  {
    if |leaves| == 0 then ZeroHash()
    else if |leaves| == 1 then leaves[0]
    else Root(D, NextLevel(D, leaves))
  }

  function Fold(D: Hasher, acc: Hash256, branches: seq<Hash256>): Hash256
    decreases |branches|
  {
    if |branches| == 0 then acc else Fold(D, PairHash(D, acc, branches[0]), branches[1..])
  }

  /** The siblings of the leftmost path. */
  function Branch(D: Hasher, leaves: seq<Hash256>): seq<Hash256>
    decreases |leaves|
  {
    if |leaves| <= 1 then [] else [Even(leaves)[1]] + Branch(D, NextLevel(D, leaves))
  }

  // ---- The methods -------------------------------------------------------

  method MerkleRootFromLeaves(D: Hasher, leaves: seq<Hash256>) returns (root: Hash256)
    ensures root == Root(D, leaves)
  {
    if |leaves| == 0 { return ZeroHash(); }
    var level := leaves;
    while |level| > 1
      invariant |level| > 0 && Root(D, level) == Root(D, leaves)
      decreases |level|
    {
      level := HashLevel(D, level);
    }
    root := level[0];
  }

  /** The body shared by both level loops: complete the level, then hash its pairs. */
  method HashLevel(D: Hasher, level: seq<Hash256>) returns (next: seq<Hash256>)
    requires |level| > 1
    ensures next == NextLevel(D, level)
  {
    var l := level;
    if |l| % 2 != 0 { l := l + [l[|l| - 1]]; }
    next := [];
    var i := 0;
    while i < |l|
      invariant 0 <= i <= |l| && i == 2 * |next|
      invariant next == NextLevel(D, level)[..i / 2]
    {
      next := next + [PairHash(D, l[i], l[i + 1])];
      i := i + 2;
    }
  }

  method MerkleRootFromBranch(D: Hasher, coinbaseHash: Hash256, branches: seq<Hash256>) returns (root: Hash256)
    ensures root == Fold(D, coinbaseHash, branches)
  {
    root := coinbaseHash;
    for i := 0 to |branches|
      invariant Fold(D, root, branches[i..]) == Fold(D, coinbaseHash, branches)
    {
      root := PairHash(D, root, branches[i]);
      assert branches[i..][1..] == branches[i + 1..];
    }
  }

  method MerkleBranchForCoinbase(D: Hasher, leaves: seq<Hash256>) returns (branch: seq<Hash256>)
    ensures branch == Branch(D, leaves)
  {
    hide NextLevel, Branch;
    BranchEnd(D, leaves);
    branch := [];
    if |leaves| <= 1 { return; }
    var level := leaves;
    while |level| > 1
      invariant |level| > 0 && branch + Branch(D, level) == Branch(D, leaves)
      decreases |level|
    {
      var l := if |level| % 2 != 0 then level + [level[|level| - 1]] else level;
      BranchStep(D, level, branch);
      branch := branch + [l[1]];
      level := HashLevel(D, level);
    }
    BranchEnd(D, level);
  }

  lemma BranchEnd(D: Hasher, level: seq<Hash256>)
    ensures |level| <= 1 ==> Branch(D, level) == []
  {
  }

  lemma BranchStep(D: Hasher, level: seq<Hash256>, before: seq<Hash256>)
    requires |level| > 1
    ensures before + Branch(D, level) == before + [Even(level)[1]] + Branch(D, NextLevel(D, level))
  {
    hide NextLevel;
    var first, rest := [Even(level)[1]], Branch(D, NextLevel(D, level));
    assert Branch(D, level) == first + rest;
    Associative(before, first, rest);
  }

  // ---- What they promise -------------------------------------------------

  lemma FoldCons(D: Hasher, acc: Hash256, first: Hash256, rest: seq<Hash256>)
    ensures Fold(D, acc, [first] + rest) == Fold(D, PairHash(D, acc, first), rest)
  {
  }

  /** Folding the coinbase branch over the first leaf gives the root of the whole tree. */
  lemma {:induction false} BranchGivesRoot(D: Hasher, leaves: seq<Hash256>)
    requires |leaves| > 0
    ensures Fold(D, leaves[0], Branch(D, leaves)) == Root(D, leaves)
    decreases |leaves|
  {
    hide NextLevel;
    if |leaves| > 1 {
      var next := NextLevel(D, leaves);
      BranchGivesRoot(D, next);
      NextAt(D, leaves, 0);
      FoldCons(D, leaves[0], Even(leaves)[1], Branch(D, next));
    }
  }

  /** The branch is as long as the tree is high: the least k with |leaves| <= 2^k. */
  lemma {:induction false} BranchLength(D: Hasher, leaves: seq<Hash256>)
    requires |leaves| > 0
    ensures var k := |Branch(D, leaves)|; |leaves| <= Pow2(k) && forall j: nat :: |leaves| <= Pow2(j) ==> k <= j
    decreases |leaves|
  {
    var k := |Branch(D, leaves)|;
    if |leaves| > 1 {
      BranchLength(D, NextLevel(D, leaves));
      forall j: nat | |leaves| <= Pow2(j) ensures k <= j {
        assert j > 0 && (|leaves| + 1) / 2 <= Pow2(j - 1);
      }
    }
  }

  ghost function LevelPairs(level: seq<Hash256>): set<seq<Byte>> {
    set i | 0 <= i < |Even(level)| / 2 :: Both(Even(level)[2 * i], Even(level)[2 * i + 1])
  }

  /** Every pair of nodes that is hashed on the way to the root. */
  ghost function NodePairs(D: Hasher, leaves: seq<Hash256>): set<seq<Byte>>
    decreases |leaves|
  {
    if |leaves| <= 1 then {}
    else LevelPairs(leaves) + NodePairs(D, NextLevel(D, leaves))
  }

  ghost predicate Collision(D: Hasher, x: seq<Byte>, y: seq<Byte>) { x != y && D(x) == D(y) }

  /** Two different leaf lists of one length with the same root exhibit a collision of D inside their trees. */
  lemma {:induction false} SameRootCollision(D: Hasher, a: seq<Hash256>, b: seq<Hash256>) returns (x: seq<Byte>, y: seq<Byte>)
    requires |a| == |b| && a != b && Root(D, a) == Root(D, b)
    ensures Collision(D, x, y) && x in NodePairs(D, a) && y in NodePairs(D, b)
    decreases |a|
  {
    if NextLevel(D, a) == NextLevel(D, b) {
      x, y := SameLevelCollision(D, a, b);
    } else {
      x, y := SameRootCollision(D, NextLevel(D, a), NextLevel(D, b));
    }
  }

  lemma SameLevelCollision(D: Hasher, a: seq<Hash256>, b: seq<Hash256>) returns (x: seq<Byte>, y: seq<Byte>)
    requires |a| == |b| > 1 && a != b && NextLevel(D, a) == NextLevel(D, b)
    ensures Collision(D, x, y) && x in LevelPairs(a) && y in LevelPairs(b)
  {
    var i :| 0 <= i < |a| && a[i] != b[i];
    var ea, eb, k := Even(a), Even(b), i / 2;
    NextAt(D, a, k);
    NextAt(D, b, k);
    assert ea[i] == a[i] && eb[i] == b[i];
    assert i == 2 * k || i == 2 * k + 1;
    x, y := Both(ea[2 * k], ea[2 * k + 1]), Both(eb[2 * k], eb[2 * k + 1]);
  }

  /** The left hash comes first, and the last of an odd level is paired with itself. */
  lemma SmallTrees(D: Hasher, a: Hash256, b: Hash256, c: Hash256)
    ensures Root(D, [a]) == a && Root(D, [a, b]) == D(a + b)
    ensures Root(D, [a, b, c]) == D(D(a + b) + D(c + c))
    ensures Branch(D, [a, b, c]) == [b, D(c + c)]
  {
    hide NextLevel, Even;
    TwoLeaves(D, a, b);
    TwoLeaves(D, D(a + b), D(c + c));
    ThreeLeaves(D, a, b, c);
    assert Root(D, [D(a + b), D(c + c)]) == D(D(a + b) + D(c + c));
    assert Branch(D, [D(a + b), D(c + c)]) == [D(c + c)] + [];
    assert Branch(D, [a, b, c]) == [b] + ([D(c + c)] + []);
  }

  lemma TwoLeaves(D: Hasher, a: Hash256, b: Hash256)
    ensures NextLevel(D, [a, b]) == [D(a + b)] && Even([a, b])[1] == b
  {
  }

  lemma ThreeLeaves(D: Hasher, a: Hash256, b: Hash256, c: Hash256)
    ensures NextLevel(D, [a, b, c]) == [D(a + b), D(c + c)] && Even([a, b, c])[1] == b
  {
  }

  lemma ShortFold(D: Hasher, a: Hash256, b: Hash256, c: Hash256)
    ensures Fold(D, a, [b, c]) == D(D(a + b) + c)
  {
    assert [b, c][1..] == [c] && [c][1..] == [];
    assert Fold(D, D(a + b), [c]) == D(D(a + b) + c);
  }

  /** Lists of different lengths can share a root without any collision: the completed copy of an odd list does. */
  lemma DuplicateTailSameRoot(D: Hasher, leaves: seq<Hash256>)
    requires |leaves| > 1 && |leaves| % 2 == 1
    ensures Root(D, leaves + [leaves[|leaves| - 1]]) == Root(D, leaves)
  {
  }

  /** The pairs that folding a branch over acc hashes. */
  ghost function FoldPairs(D: Hasher, acc: Hash256, branches: seq<Hash256>): set<seq<Byte>>
    decreases |branches|
  {
    if |branches| == 0 then {}
    else {Both(acc, branches[0])} + FoldPairs(D, PairHash(D, acc, branches[0]), branches[1..])
  }

  /** Two starting hashes that one branch folds to the same root exhibit a collision between their folds. */
  lemma {:induction false} SameFoldCollision(D: Hasher, a: Hash256, b: Hash256, branches: seq<Hash256>)
    returns (x: seq<Byte>, y: seq<Byte>)
    requires a != b && Fold(D, a, branches) == Fold(D, b, branches)
    ensures Collision(D, x, y) && x in FoldPairs(D, a, branches) && y in FoldPairs(D, b, branches)
    decreases |branches|
  {
    var x0, y0 := Both(a, branches[0]), Both(b, branches[0]);
    if D(x0) == D(y0) {
      x, y := x0, y0;
    } else {
      x, y := SameFoldCollision(D, D(x0), D(y0), branches[1..]);
    }
  }
}
