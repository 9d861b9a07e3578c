/**
 The Merkle branch of the proof input: buildInput in zk.ts, for any number of levels,
 any leaf and any two-input hash.
 */
module Merkle {

  function Pow2(n: nat): (p: nat)
    ensures p >= 1
  {
    if n == 0 then 1 else 2 * Pow2(n - 1)
  }

  /** The level above: neighbours hashed in pairs. */
  function Above<T>(H: (T, T) -> T, cur: seq<T>): (next: seq<T>)
    requires |cur| % 2 == 0
    ensures |next| == |cur| / 2
    ensures forall i :: 0 <= i < |next| ==> next[i] == H(cur[2 * i], cur[2 * i + 1])
  {
    seq(|cur| / 2, i requires 0 <= i < |cur| / 2 => H(cur[2 * i], cur[2 * i + 1]))
  }

  function Root<T>(H: (T, T) -> T, cur: seq<T>, levels: nat): T
    requires |cur| == Pow2(levels)
    decreases levels
  {
    if levels == 0 then cur[0] else Root(H, Above(H, cur), levels - 1)
  }

  /** idx ^ 1 */
  function Sibling(idx: nat): nat {
    if idx % 2 == 0 then idx + 1 else idx - 1
  }

  /** The bits of an index, lowest first: which side each ancestor is on. */
  function Sides(idx: nat, levels: nat): (bits: seq<nat>)
    ensures |bits| == levels
  {
    if levels == 0 then [] else [idx % 2] + Sides(idx / 2, levels - 1)
  }

  function Siblings<T>(H: (T, T) -> T, cur: seq<T>, idx: nat, levels: nat): (path: seq<T>)
    requires |cur| == Pow2(levels) && idx < |cur|
    ensures |path| == levels
    decreases levels
  {
    if levels == 0 then [] else [cur[Sibling(idx)]] + Siblings(H, Above(H, cur), idx / 2, levels - 1)
  }

  /** What the circuit does with a leaf and its branch. */
  function Fold<T>(H: (T, T) -> T, leaf: T, path: seq<T>, sides: seq<nat>): T
    requires |path| == |sides|
  {
    if path == [] then leaf
    else Fold(H, Parent(H, leaf, path[0], sides[0]), path[1..], sides[1..])
  }

  function Parent<T>(H: (T, T) -> T, node: T, sibling: T, side: nat): T {
    if side == 0 then H(node, sibling) else H(sibling, node)
  }

  method LevelAbove<T>(H: (T, T) -> T, cur: seq<T>) returns (next: seq<T>)
    requires |cur| % 2 == 0
    ensures next == Above(H, cur)
  {
    next := [];
    var i := 0;
    while i < |cur|
      invariant 0 <= i <= |cur| && i % 2 == 0
      invariant next == Above(H, cur)[..i / 2]
    {
      next := next + [H(cur[i], cur[i + 1])];
      i := i + 2;
    }
  }

  method Branch<T>(H: (T, T) -> T, leaves: seq<T>, start: nat, levels: nat)
    returns (elements: seq<T>, indices: seq<nat>, root: T)
    requires |leaves| == Pow2(levels) && start < |leaves|
    ensures elements == Siblings(H, leaves, start, levels) && indices == Sides(start, levels)
    ensures root == Root(H, leaves, levels) == Fold(H, leaves[start], elements, indices)
  {
    elements, indices := [], [];
    hide Above, Siblings, Sides, Root, Fold;
    var cur, idx: nat := leaves, start;
    for l := 0 to levels
      invariant |cur| == Pow2(levels - l) && idx < |cur|
      invariant Siblings(H, leaves, start, levels) == elements + Siblings(H, cur, idx, levels - l)
      invariant Sides(start, levels) == indices + Sides(idx, levels - l)
      invariant Root(H, leaves, levels) == Root(H, cur, levels - l)
    {
      elements := elements + [cur[Sibling(idx)]];
      indices := indices + [idx % 2];
      SiblingsStep(H, cur, idx, levels - l);
      cur := LevelAbove(H, cur);
      idx := idx / 2;
    }
    SiblingsEnd(H, cur, idx);
    root := cur[0];
    BranchFolds(H, leaves, start, levels);
  }

  lemma ParentStep<T>(H: (T, T) -> T, cur: seq<T>, idx: nat)
    requires |cur| % 2 == 0 && idx < |cur|
    ensures Sibling(idx) < |cur| && idx / 2 < |cur| / 2
    ensures Parent(H, cur[idx], cur[Sibling(idx)], idx % 2) == Above(H, cur)[idx / 2]
  {
    var i := idx / 2;
    assert idx == 2 * i || idx == 2 * i + 1;
    assert Above(H, cur)[i] == H(cur[2 * i], cur[2 * i + 1]);
  }

  lemma HalfTheNodes<T>(cur: seq<T>, idx: nat, levels: nat)
    requires levels > 0 && |cur| == Pow2(levels) && idx < |cur|
    ensures |cur| % 2 == 0 && |cur| / 2 == Pow2(levels - 1) && idx / 2 < Pow2(levels - 1)
  {
    var p := Pow2(levels - 1);
    assert |cur| == 2 * p;
  }

  lemma {:induction false} SiblingsStep<T>(H: (T, T) -> T, cur: seq<T>, idx: nat, levels: nat)
    requires levels > 0 && |cur| == Pow2(levels) && idx < |cur|
    ensures |cur| % 2 == 0 && |cur| / 2 == Pow2(levels - 1) && idx / 2 < Pow2(levels - 1)
    ensures Sibling(idx) < |cur|
    ensures Siblings(H, cur, idx, levels) == [cur[Sibling(idx)]] + Siblings(H, Above(H, cur), idx / 2, levels - 1)
    ensures Sides(idx, levels) == [idx % 2] + Sides(idx / 2, levels - 1)
    ensures Root(H, cur, levels) == Root(H, Above(H, cur), levels - 1)
    ensures Parent(H, cur[idx], cur[Sibling(idx)], idx % 2) == Above(H, cur)[idx / 2]
  {
    hide Pow2, Above, Parent, Sibling, Siblings, Root, Sides;
    HalfTheNodes(cur, idx, levels);
    ParentStep(H, cur, idx);
    RootStep(H, cur, levels);
    PathStep(H, cur, idx, levels);
    SidesStep(idx, levels);
  }

  lemma RootStep<T>(H: (T, T) -> T, cur: seq<T>, levels: nat)
    requires levels > 0 && |cur| == Pow2(levels) && |cur| % 2 == 0 && |cur| / 2 == Pow2(levels - 1)
    ensures Root(H, cur, levels) == Root(H, Above(H, cur), levels - 1)
  {
    hide Pow2, Above;
  }

  lemma PathStep<T>(H: (T, T) -> T, cur: seq<T>, idx: nat, levels: nat)
    requires levels > 0 && |cur| == Pow2(levels) && |cur| % 2 == 0 && |cur| / 2 == Pow2(levels - 1)
    requires idx < |cur| && idx / 2 < Pow2(levels - 1) && Sibling(idx) < |cur|
    ensures Siblings(H, cur, idx, levels) == [cur[Sibling(idx)]] + Siblings(H, Above(H, cur), idx / 2, levels - 1)
  {
    hide Pow2, Above, Sibling;
  }

  lemma SidesStep(idx: nat, levels: nat)
    requires levels > 0
    ensures Sides(idx, levels) == [idx % 2] + Sides(idx / 2, levels - 1)
  {
  }

  lemma SiblingsEnd<T>(H: (T, T) -> T, cur: seq<T>, idx: nat)
    requires |cur| == 1 && idx == 0
    ensures Siblings(H, cur, idx, 0) == [] && Sides(idx, 0) == [] && Root(H, cur, 0) == cur[0]
  {
  }

  /** The tree of the proof input: the member's leaf at index 0, fillers elsewhere. */
  method BuildInput<T>(H: (T, T) -> T, leaf: T, filler: nat -> T, levels: nat)
    returns (elements: seq<T>, indices: seq<nat>, root: T)
    ensures |elements| == |indices| == levels && Fold(H, leaf, elements, indices) == root
    ensures forall l :: 0 <= l < levels ==> indices[l] == 0
  {
    var leaves := [leaf];
    for i := 1 to Pow2(levels)
      invariant |leaves| == i && leaves[0] == leaf
    {
      leaves := leaves + [filler(i)];
    }
    elements, indices, root := Branch(H, leaves, 0, levels);
    SidesOfZero(levels);
  }

  lemma {:induction false} SidesOfZero(levels: nat)
    ensures forall l :: 0 <= l < levels ==> Sides(0, levels)[l] == 0
  {
    if levels > 0 {
      SidesOfZero(levels - 1);
    }
  }

  // --- Main results ---

  /** Folding a leaf with its branch gives the root of the tree. */
  lemma {:induction false} BranchFolds<T>(H: (T, T) -> T, cur: seq<T>, idx: nat, levels: nat)
    requires |cur| == Pow2(levels) && idx < |cur|
    ensures Fold(H, cur[idx], Siblings(H, cur, idx, levels), Sides(idx, levels)) == Root(H, cur, levels)
    decreases levels
  {
    hide Above, Siblings, Sides, Root, Sibling, Parent;
    if levels == 0 {
      SiblingsEnd(H, cur, idx);
    } else {
      SiblingsStep(H, cur, idx, levels);
      BranchFolds(H, Above(H, cur), idx / 2, levels - 1);
    }
  }

  lemma AboveHalves<T>(H: (T, T) -> T, a: seq<T>, b: seq<T>)
    requires |a| % 2 == 0 && |b| % 2 == 0
    ensures Above(H, a + b) == Above(H, a) + Above(H, b)
  {
    assert (|a| + |b|) / 2 == |a| / 2 + |b| / 2;
    forall i | 0 <= i < (|a| + |b|) / 2
      ensures Above(H, a + b)[i] == (Above(H, a) + Above(H, b))[i]
    {
      if i >= |a| / 2 {
        var k := i - |a| / 2;
        assert (a + b)[2 * i] == b[2 * k] && (a + b)[2 * i + 1] == b[2 * k + 1];
      }
    }
  }

  /** The tree seen from the top: its root is the hash of the left half's and the right half's. */
  lemma {:induction false} RootByHalves<T>(H: (T, T) -> T, a: seq<T>, b: seq<T>, levels: nat)
    requires |a| == |b| == Pow2(levels)
    ensures |a + b| == Pow2(levels + 1)
    ensures Root(H, a + b, levels + 1) == H(Root(H, a, levels), Root(H, b, levels))
    decreases levels
  {
    hide Above;
    if levels == 0 {
      TwoLeaves(H, a[0], b[0]);
      assert a == [a[0]] && b == [b[0]] && a + b == [a[0], b[0]];
    } else {
      HalfTheNodes(a, 0, levels);
      HalfTheNodes(b, 0, levels);
      AboveHalves(H, a, b);
      RootByHalves(H, Above(H, a), Above(H, b), levels - 1);
    }
  }

  lemma TwoLeaves<T>(H: (T, T) -> T, x: T, y: T)
    ensures Pow2(1) == 2 && Root(H, [x, y], 1) == H(x, y)
  {
    assert Above(H, [x, y]) == [H(x, y)];
  }

  ghost predicate Injective<T(!new)>(H: (T, T) -> T) {
    forall a, b, c, d :: H(a, b) == H(c, d) ==> a == c && b == d
  }

  /** On one side pattern, equal folds come from equal leaves and equal branches. */
  lemma {:induction false} FoldBinds<T(!new)>(H: (T, T) -> T, x: T, xs: seq<T>, y: T, ys: seq<T>, sides: seq<nat>)
    requires Injective(H) && |xs| == |ys| == |sides|
    requires Fold(H, x, xs, sides) == Fold(H, y, ys, sides)
    ensures x == y && xs == ys
  {
    if xs != [] {
      var x', y' := Parent(H, x, xs[0], sides[0]), Parent(H, y, ys[0], sides[0]);
      FoldBinds(H, x', xs[1..], y', ys[1..], sides[1..]);
      assert xs == [xs[0]] + xs[1..] && ys == [ys[0]] + ys[1..];
    }
  }

  /** A branch authenticates: only the leaf at that index, with its own branch, folds to the root. */
  lemma {:induction false} BranchAuthenticates<T(!new)>(H: (T, T) -> T, leaves: seq<T>, idx: nat, levels: nat,
                                                        x: T, path: seq<T>)
    requires Injective(H) && |leaves| == Pow2(levels) && idx < |leaves| && |path| == levels
    ensures Fold(H, x, path, Sides(idx, levels)) == Root(H, leaves, levels)
            <==> x == leaves[idx] && path == Siblings(H, leaves, idx, levels)
  {
    BranchFolds(H, leaves, idx, levels);
    if Fold(H, x, path, Sides(idx, levels)) == Root(H, leaves, levels) {
      FoldBinds(H, x, path, leaves[idx], Siblings(H, leaves, idx, levels), Sides(idx, levels));
    }
  }
}
