/** Unpacking a guest's diff on the host: exact, unless a path changes between
    directory and non-directory. */
module MergerDiff {
  import opened Paths
  import opened Changeset
  import opened Overlay
  import opened DiffApply
  import opened Merger

  /** Names and entries as a file system has them. */
  ghost predicate BuiltTree(t: Tree) {
    WellFormed(t) && forall p | p in t :: Last(p) != "" && Last(p) != "." && Last(p) != ".." && Plainly(t[p])
  }

  /** Trees as a guest captures them, whose difference holds no name that reads as a whiteout. */
  ghost predicate Diffable(b: Tree, c: Tree) {
    && BuiltTree(b) && BuiltTree(c)
    && (forall p | p in Changed(b, c) :: !Reserved(Last(p)))
    && (forall q | q in DeletedRoots(b, c) :: Last(q) != OPAQUE_SUFFIX)
  }

  ghost predicate SameSort(b: Tree, c: Tree, p: Path) {
    p in b && p in c ==> (b[p].Dir? <==> c[p].Dir?)
  }

  ghost predicate SameSorts(b: Tree, c: Tree) {
    forall p :: SameSort(b, c, p)
  }

  /** The tree after the first i whiteouts. */
  ghost function AfterWhiteouts(base: Tree, b: Tree, c: Tree, i: nat): Tree
    requires i <= |Roots(b, c)|
  {
    map p | p in base && forall r | 0 <= r < i :: !(Roots(b, c)[r] <= p) :: base[p]
  }

  /** The tree after all whiteouts and the first j additions. */
  ghost function AfterAdds(base: Tree, b: Tree, c: Tree, j: nat): Tree
    requires j <= |Adds(b, c)|
  {
    map p | p in c && (p in base || p in Adds(b, c)[..j]) ::
      if p in Adds(b, c)[..j] then View(c[p]) else base[p]
  }

  lemma PlainWhiteoutAt(b: Tree, c: Tree, i: nat)
    requires Diffable(b, c) && i < |Roots(b, c)|
    ensures i < |Layer(b, c)| && Roots(b, c)[i] in DeletedRoots(b, c) && Layer(b, c)[i] == Hide(Roots(b, c)[i])
  {
    LayerSize(b, c);
    WhiteoutAt(b, c, i);
  }

  lemma PlainAdditionAt(b: Tree, c: Tree, j: nat)
    requires Diffable(b, c) && j < |Adds(b, c)|
    ensures |Roots(b, c)| + j < |Layer(b, c)| && Adds(b, c)[j] in Changed(b, c)
    ensures Layer(b, c)[|Roots(b, c)| + j] == Upsert(Adds(b, c)[j], c[Adds(b, c)[j]])
  {
    LayerSize(b, c);
    AdditionAt(b, c, j);
  }

  lemma WhiteoutRemoves(base: Tree, b: Tree, c: Tree, i: nat)
    requires i < |Roots(b, c)|
    ensures RemoveAt(AfterWhiteouts(base, b, c, i), Roots(b, c)[i]) == AfterWhiteouts(base, b, c, i + 1)
  {
  }

  /** No name of a path is the one for going up. */
  lemma NoParentNames(t: Tree, p: Path)
    requires BuiltTree(t) && p in t
    ensures ".." !in p
  {
    forall i | 0 <= i < |p| ensures p[i] != ".." {
      var a := p[..i + 1];
      assert a == p || [] < a < p;
      assert a in t && Last(a) == p[i];
    }
  }

  lemma RootSpared(b: Tree, c: Tree, r: nat, i: nat, a: Path)
    requires Diffable(b, c) && r < i < |Roots(b, c)| && a <= Roots(b, c)[i]
    ensures !(Roots(b, c)[r] <= a)
  {
    var roots := Roots(b, c);
    assert roots[r] in roots && roots[i] in roots;
    SortedDistinct(roots);
    RootsApart(b, c, roots[r], roots[i]);
  }

  /** Earlier whiteouts leave the i-th root, and what is above it. */
  lemma RootThere(base: Tree, b: Tree, c: Tree, i: nat)
    requires Diffable(b, c) && Matches(b, base) && i < |Roots(b, c)| && Roots(b, c)[i] in b
    ensures Roots(b, c)[i] in AfterWhiteouts(base, b, c, i) && ClearAbove(AfterWhiteouts(base, b, c, i), Roots(b, c)[i])
  {
    var roots, q := Roots(b, c), Roots(b, c)[i];
    forall r | 0 <= r < i ensures !(roots[r] <= q) { RootSpared(b, c, r, i, q); }
    forall a | [] < a < q ensures a in AfterWhiteouts(base, b, c, i) && AfterWhiteouts(base, b, c, i)[a].Dir? {
      forall r | 0 <= r < i ensures !(roots[r] <= a) { RootSpared(b, c, r, i, a); }
    }
    NoParentNames(b, q);
  }

  /** One whiteout removes its root, whose parents are all still directories. */
  lemma WhiteoutStep(step: Stepper, base: Tree, b: Tree, c: Tree, i: nat)
    requires Behaves(step) && Diffable(b, c) && Matches(b, base) && i < |Roots(b, c)|
    ensures step(AfterWhiteouts(base, b, c, i), Hide(Roots(b, c)[i])) == Unpacked(AfterWhiteouts(base, b, c, i + 1))
  {
    PlainWhiteoutAt(b, c, i);
    RootThere(base, b, c, i);
    assert HidesAt(step, AfterWhiteouts(base, b, c, i), Roots(b, c)[i]);
    WhiteoutRemoves(base, b, c, i);
  }

  lemma LeftByRoots(b: Tree, c: Tree, p: Path)
    requires WellFormed(b) && WellFormed(c) && p in b
    ensures p in c <==> forall r | 0 <= r < |Roots(b, c)| :: !(Roots(b, c)[r] <= p)
  {
    var roots := Roots(b, c);
    if p in c {
      forall r | 0 <= r < |roots| ensures !(roots[r] <= p) {
        assert roots[r] in roots;
        RootNotAbove(b, c, roots[r], p);
      }
    } else {
      var q := TopmostDeleted(b, c, p);
      assert q in roots;
    }
  }

  lemma WhiteoutsDone(base: Tree, b: Tree, c: Tree)
    requires Diffable(b, c) && Matches(b, base)
    ensures AfterWhiteouts(base, b, c, |Roots(b, c)|) == AfterAdds(base, b, c, 0)
  {
    var w, a := AfterWhiteouts(base, b, c, |Roots(b, c)|), AfterAdds(base, b, c, 0);
    forall p: Path ensures SameAt(w, a, p) { WhiteoutsDoneAt(base, b, c, p); }
    SameEverywhere(w, a);
  }

  lemma WhiteoutsDoneAt(base: Tree, b: Tree, c: Tree, p: Path)
    requires WellFormed(b) && WellFormed(c) && base.Keys == b.Keys
    ensures SameAt(AfterWhiteouts(base, b, c, |Roots(b, c)|), AfterAdds(base, b, c, 0), p)
  {
    if p in base {
      assert p in b;
      LeftByRoots(b, c, p);
    }
  }

  /** When an addition's turn comes, every directory above it is there. */
  lemma AboveThere(base: Tree, b: Tree, c: Tree, j: nat, a: Path)
    requires Diffable(b, c) && Matches(b, base) && j < |Adds(b, c)| && [] < a < Adds(b, c)[j]
    ensures a in AfterAdds(base, b, c, j) && AfterAdds(base, b, c, j)[a].Dir?
  {
    var k := Adds(b, c)[j];
    assert k in Adds(b, c);
    assert a in c && c[a].Dir?;
    if a in Changed(b, c) {
      AncestorFirst(a, k);
      SmallerAdded(b, c, j, a);
    }
  }

  lemma SmallerAdded(b: Tree, c: Tree, j: nat, a: Path)
    requires j < |Adds(b, c)| && a in Changed(b, c) && PathLt(a, Adds(b, c)[j])
    ensures a in Adds(b, c)[..j]
  {
    SmallerSeen(Changed(b, c), j, a);
  }

  lemma NotYetAdded(b: Tree, c: Tree, j: nat)
    requires j < |Adds(b, c)|
    ensures Adds(b, c)[j] !in Adds(b, c)[..j]
  {
    SortedDistinct(Adds(b, c));
  }

  lemma AdditionPlaces(base: Tree, b: Tree, c: Tree, j: nat)
    requires j < |Adds(b, c)| && Adds(b, c)[j] in c
    ensures AfterAdds(base, b, c, j)[Adds(b, c)[j] := View(c[Adds(b, c)[j]])] == AfterAdds(base, b, c, j + 1)
  {
    assert Adds(b, c)[..j + 1] == Adds(b, c)[..j] + [Adds(b, c)[j]];
  }

  /** A directory in the place of a symlink. */
  ghost predicate DirOverLink(b: Tree, c: Tree, p: Path) {
    p in b && p in c && b[p].Symlink? && c[p].Dir?
  }

  /** One addition is placed, fails, or is a directory that meets a symlink. */
  ghost predicate AdditionEnds(base: Tree, b: Tree, c: Tree, j: nat, o: Outcome)
    requires j < |Adds(b, c)|
  {
    var p := Adds(b, c)[j];
    if SameSort(b, c, p) then o == Unpacked(AfterAdds(base, b, c, j + 1)) else DirOverLink(b, c, p) || o == Failed
  }

  lemma AdditionClear(base: Tree, b: Tree, c: Tree, j: nat)
    requires Diffable(b, c) && Matches(b, base) && j < |Adds(b, c)| && Adds(b, c)[j] in c
    ensures ClearAbove(AfterAdds(base, b, c, j), Adds(b, c)[j])
  {
    var t, k := AfterAdds(base, b, c, j), Adds(b, c)[j];
    forall a | [] < a < k ensures a in t && t[a].Dir? { AboveThere(base, b, c, j, a); }
    NoParentNames(c, k);
  }

  lemma AdditionStep(step: Stepper, base: Tree, b: Tree, c: Tree, j: nat)
    requires Behaves(step) && Diffable(b, c) && Matches(b, base) && j < |Adds(b, c)| && Adds(b, c)[j] in c
    ensures AdditionEnds(base, b, c, j, step(AfterAdds(base, b, c, j), Upsert(Adds(b, c)[j], c[Adds(b, c)[j]])))
  {
    var t, k := AfterAdds(base, b, c, j), Adds(b, c)[j];
    AdditionClear(base, b, c, j);
    assert PutsAt(step, t, k, c[k]);
    NotYetAdded(b, c, j);
    AdditionPlaces(base, b, c, j);
  }

  lemma AdditionActs(step: Stepper, base: Tree, b: Tree, c: Tree, j: nat)
    requires Behaves(step) && Diffable(b, c) && Matches(b, base) && j < |Adds(b, c)|
    ensures |Roots(b, c)| + j < |Layer(b, c)|
    ensures AdditionEnds(base, b, c, j, step(AfterAdds(base, b, c, j), Layer(b, c)[|Roots(b, c)| + j]))
  {
    PlainAdditionAt(b, c, j);
    AdditionStep(step, base, b, c, j);
  }

  lemma WhiteoutActs(step: Stepper, base: Tree, b: Tree, c: Tree, i: nat)
    requires Behaves(step) && Diffable(b, c) && Matches(b, base) && i < |Roots(b, c)|
    ensures i < |Layer(b, c)|
    ensures step(AfterWhiteouts(base, b, c, i), Layer(b, c)[i]) == Unpacked(AfterWhiteouts(base, b, c, i + 1))
  {
    PlainWhiteoutAt(b, c, i);
    WhiteoutStep(step, base, b, c, i);
  }

  /** The first n whiteouts unpack. */
  lemma {:induction false} WhiteoutTrees(step: Stepper, base: Tree, b: Tree, c: Tree, n: nat) returns (ts: seq<Tree>)
    requires Behaves(step) && Diffable(b, c) && Matches(b, base) && n <= |Roots(b, c)|
    ensures Stretch(step, ts, Layer(b, c), 0, n)
    ensures ts[0] == AfterWhiteouts(base, b, c, 0) && ts[n] == AfterWhiteouts(base, b, c, n)
    decreases n
  {
    if n == 0 {
      ts := [AfterWhiteouts(base, b, c, 0)];
    } else {
      ts := WhiteoutTrees(step, base, b, c, n - 1);
      WhiteoutActs(step, base, b, c, n - 1);
      ExtendStretch(step, ts, Layer(b, c), 0, n - 1, AfterWhiteouts(base, b, c, n));
      ts := ts + [AfterWhiteouts(base, b, c, n)];
    }
  }

  lemma WhiteoutsBegin(base: Tree, b: Tree, c: Tree)
    ensures AfterWhiteouts(base, b, c, 0) == base
  {
  }

  /** The additions before the j-th unpack, if none of them changes a sort. */
  lemma {:induction false} AdditionTrees(step: Stepper, base: Tree, b: Tree, c: Tree, j: nat) returns (ts: seq<Tree>)
    requires Behaves(step) && Diffable(b, c) && Matches(b, base) && j <= |Adds(b, c)|
    requires forall i | 0 <= i < j :: SameSort(b, c, Adds(b, c)[i])
    ensures Stretch(step, ts, Layer(b, c), |Roots(b, c)|, |Roots(b, c)| + j)
    ensures ts[0] == AfterAdds(base, b, c, 0) && ts[j] == AfterAdds(base, b, c, j)
    decreases j
  {
    if j == 0 {
      LayerSize(b, c);
      ts := [AfterAdds(base, b, c, 0)];
    } else {
      ts := AdditionTrees(step, base, b, c, j - 1);
      AdditionActs(step, base, b, c, j - 1);
      ExtendStretch(step, ts, Layer(b, c), |Roots(b, c)|, |Roots(b, c)| + j - 1, AfterAdds(base, b, c, j));
      ts := ts + [AfterAdds(base, b, c, j)];
    }
  }

  /** The first addition that changes a sort, or their number. */
  ghost function FirstChange(b: Tree, c: Tree, j: nat): (i: nat)
    requires j <= |Adds(b, c)|
    ensures j <= i <= |Adds(b, c)| && (forall k | j <= k < i :: SameSort(b, c, Adds(b, c)[k]))
    ensures i < |Adds(b, c)| ==> !SameSort(b, c, Adds(b, c)[i])
    decreases |Adds(b, c)| - j
  {
    if j < |Adds(b, c)| && SameSort(b, c, Adds(b, c)[j]) then FirstChange(b, c, j + 1) else j
  }

  lemma ChangesAreAdditions(b: Tree, c: Tree)
    requires forall j | 0 <= j < |Adds(b, c)| :: SameSort(b, c, Adds(b, c)[j])
    ensures forall p :: SameSort(b, c, p)
  {
    forall p ensures SameSort(b, c, p) {
      if p in Changed(b, c) {
        assert p in Adds(b, c);
        var j :| 0 <= j < |Adds(b, c)| && Adds(b, c)[j] == p;
      }
    }
  }

  lemma AddsDone(base: Tree, b: Tree, c: Tree)
    requires Diffable(b, c) && Matches(b, base)
    ensures Matches(c, AfterAdds(base, b, c, |Adds(b, c)|))
  {
    var adds, end := Adds(b, c), AfterAdds(base, b, c, |Adds(b, c)|);
    assert adds[..|adds|] == adds;
    forall p | p in c ensures p in end && Kept(c[p], end[p]) {
      if p in Changed(b, c) { ViewKeeps(c[p]); }
    }
  }

  lemma AllUnpack(step: Stepper, base: Tree, b: Tree, c: Tree)
    requires Behaves(step) && Diffable(b, c) && Matches(b, base)
    requires forall j | 0 <= j < |Adds(b, c)| :: SameSort(b, c, Adds(b, c)[j])
    ensures Fold(step, base, Layer(b, c)) == Unpacked(AfterAdds(base, b, c, |Adds(b, c)|))
  {
    var ts := DiffTrees(step, base, b, c, |Adds(b, c)|);
    LayerSize(b, c);
    FoldAll(step, ts, Layer(b, c), |Roots(b, c)| + |Adds(b, c)|);
  }

  lemma DiffTrees(step: Stepper, base: Tree, b: Tree, c: Tree, j: nat) returns (ts: seq<Tree>)
    requires Behaves(step) && Diffable(b, c) && Matches(b, base) && j <= |Adds(b, c)|
    requires forall i | 0 <= i < j :: SameSort(b, c, Adds(b, c)[i])
    ensures Stretch(step, ts, Layer(b, c), 0, |Roots(b, c)| + j)
    ensures ts[0] == base && ts[|Roots(b, c)| + j] == AfterAdds(base, b, c, j)
  {
    var ws := WhiteoutTrees(step, base, b, c, |Roots(b, c)|);
    WhiteoutsBegin(base, b, c);
    WhiteoutsDone(base, b, c);
    var us := AdditionTrees(step, base, b, c, j);
    JoinStretches(step, ws, us, Layer(b, c), |Roots(b, c)|, |Roots(b, c)| + j);
    ts := ws + us[1..];
  }

  lemma OnlyAdditions(b: Tree, c: Tree)
    requires Diffable(b, c)
    ensures forall k | |Roots(b, c)| <= k < |Layer(b, c)| :: IsAddition(c, Layer(b, c)[k])
  {
    LayerSize(b, c);
    forall k | |Roots(b, c)| <= k < |Layer(b, c)| ensures IsAddition(c, Layer(b, c)[k]) {
      PlainAdditionAt(b, c, k - |Roots(b, c)|);
    }
  }

  ghost predicate IsAddition(c: Tree, a: Action) {
    a.Upsert? && a.path in c && a.entry == c[a.path]
  }

  /** The whiteouts always unpack. */
  lemma WhiteoutsFirst(step: Stepper, base: Tree, b: Tree, c: Tree)
    requires Behaves(step) && Diffable(b, c) && Matches(b, base) && |Roots(b, c)| <= |Layer(b, c)|
    ensures Fold(step, base, Layer(b, c)) == Fold(step, AfterAdds(base, b, c, 0), Layer(b, c)[|Roots(b, c)|..])
  {
    var ts := DiffTrees(step, base, b, c, 0);
    FoldThrough(step, ts, Layer(b, c), 0, |Roots(b, c)|);
    assert Layer(b, c)[0..] == Layer(b, c);
  }

  /** Whatever the additions do, they keep the sorts of what the whiteouts left. */
  lemma DiffKeepsSorts(step: Stepper, base: Tree, b: Tree, c: Tree)
    requires Behaves(step) && Steady(step) && Diffable(b, c) && Matches(b, base)
    ensures KeepsSorts(AfterAdds(base, b, c, 0), Fold(step, base, Layer(b, c)))
  {
    LayerSize(b, c);
    WhiteoutsFirst(step, base, b, c);
    OnlyAdditions(b, c);
    FoldKeepsSorts(step, AfterAdds(base, b, c, 0), Layer(b, c), |Roots(b, c)|);
  }

  lemma DiffStays(step: Stepper, base: Tree, b: Tree, c: Tree)
    requires Behaves(step) && Steady(step) && Diffable(b, c) && Matches(b, base) && LocalLinks(b) && LocalLinks(c)
    ensures !Fold(step, base, Layer(b, c)).Diverted?
  {
    LayerSize(b, c);
    WhiteoutsFirst(step, base, b, c);
    AdditionsLocal(b, c);
    LeftLocal(base, b, c);
    FoldStays(step, AfterAdds(base, b, c, 0), Layer(b, c), |Roots(b, c)|);
  }

  lemma AdditionsLocal(b: Tree, c: Tree)
    requires Diffable(b, c) && LocalLinks(c)
    ensures forall k | |Roots(b, c)| <= k < |Layer(b, c)| ::
              Layer(b, c)[k].Upsert? && LocalEntry(Layer(b, c)[k].entry)
  {
    LayerSize(b, c);
    forall k | |Roots(b, c)| <= k < |Layer(b, c)|
      ensures Layer(b, c)[k].Upsert? && LocalEntry(Layer(b, c)[k].entry)
    {
      PlainAdditionAt(b, c, k - |Roots(b, c)|);
    }
  }

  lemma LeftLocal(base: Tree, b: Tree, c: Tree)
    requires LocalLinks(b) && Matches(b, base)
    ensures LocalLinks(AfterAdds(base, b, c, 0))
  {
    var t := AfterAdds(base, b, c, 0);
    forall p | p in t && t[p].Symlink? ensures Local(t[p].target) { assert Kept(b[p], base[p]); }
  }

  /** The first addition that changes a sort fails, unless it is a directory that meets a symlink. */
  lemma OneFails(step: Stepper, base: Tree, b: Tree, c: Tree, j: nat)
    requires Behaves(step) && Diffable(b, c) && Matches(b, base) && j < |Adds(b, c)|
    requires !SameSort(b, c, Adds(b, c)[j]) && !DirOverLink(b, c, Adds(b, c)[j])
    requires forall i | 0 <= i < j :: SameSort(b, c, Adds(b, c)[i])
    ensures Fold(step, base, Layer(b, c)) == Failed
  {
    var ts := DiffTrees(step, base, b, c, j);
    AdditionActs(step, base, b, c, j);
    FoldFails(step, ts, Layer(b, c), |Roots(b, c)| + j);
  }

  /** The first path, in the order of the archive, that changes between directory and not. */
  ghost predicate FirstSortChange(b: Tree, c: Tree, p: Path) {
    !SameSort(b, c, p) && forall q: Path | !SameSort(b, c, q) :: q == p || PathLt(p, q)
  }

  lemma FirstChangeIs(b: Tree, c: Tree, j: nat)
    requires j < |Adds(b, c)| && !SameSort(b, c, Adds(b, c)[j])
    requires forall i | 0 <= i < j :: SameSort(b, c, Adds(b, c)[i])
    ensures FirstSortChange(b, c, Adds(b, c)[j])
  {
    var adds := Adds(b, c);
    forall q: Path | !SameSort(b, c, q) ensures q == adds[j] || PathLt(adds[j], q) {
      assert q in adds;
      var i :| 0 <= i < |adds| && adds[i] == q;
    }
  }

  lemma FirstChangeUnique(b: Tree, c: Tree, p: Path, q: Path)
    requires FirstSortChange(b, c, p) && FirstSortChange(b, c, q)
    ensures p == q
  {
    if p != q {
      PathTransitive(p, q, p);
      PathIrreflexive(p);
    }
  }

  /** Every path that stays is a directory, or not, as in b. */
  ghost predicate SortsOf(b: Tree, c: Tree, t: Tree) {
    forall p | p in b && p in c :: p in t && (t[p].Dir? <==> b[p].Dir?)
  }

  lemma SortsRemain(base: Tree, b: Tree, c: Tree)
    requires Diffable(b, c) && Matches(b, base)
    ensures var r := Unpack(base, Layer(b, c)); r.Unpacked? ==> SortsOf(b, c, r.tree)
  {
    StepBehaves();
    DiffKeepsSorts(Step, base, b, c);
    var r := Unpack(base, Layer(b, c));
    if r.Unpacked? {
      forall p | p in b && p in c ensures p in r.tree && (r.tree[p].Dir? <==> b[p].Dir?) {
        assert p in AfterAdds(base, b, c, 0);
      }
    }
  }

  /** Unpacking the diff ends with the current tree if and only if no path that stays changes
      between directory and non-directory. Otherwise it fails at the first such path, unless
      there a directory takes the place of a symlink: then the code goes on where the symlink
      leads. If it reports success in the end, every path that stays is still a directory, or
      not, as it was, so the tree is another one. */
  lemma UnpackDiff(base: Tree, b: Tree, c: Tree)
    requires Diffable(b, c) && Matches(b, base)
    ensures var r := Unpack(base, Layer(b, c));
            && (r.Unpacked? && Matches(c, r.tree) <==> SameSorts(b, c))
            && (r.Unpacked? ==> SortsOf(b, c, r.tree))
            && (forall p | FirstSortChange(b, c, p) && !DirOverLink(b, c, p) :: r == Failed)
  {
    StepBehaves();
    SortsRemain(base, b, c);
    var j := FirstChange(b, c, 0);
    if j < |Adds(b, c)| {
      var p := Adds(b, c)[j];
      FirstChangeIs(b, c, j);
      forall q | FirstSortChange(b, c, q) ensures q == p { FirstChangeUnique(b, c, p, q); }
      if !DirOverLink(b, c, p) { OneFails(Step, base, b, c, j); }
    } else {
      ChangesAreAdditions(b, c);
      AllUnpack(Step, base, b, c);
      AddsDone(base, b, c);
    }
  }

  /** In trees whose symlinks lead downwards it always fails or reports success. */
  lemma UnpackDiffStays(base: Tree, b: Tree, c: Tree)
    requires Diffable(b, c) && Matches(b, base) && LocalLinks(b) && LocalLinks(c)
    ensures !Unpack(base, Layer(b, c)).Diverted?
  {
    StepBehaves();
    DiffStays(Step, base, b, c);
  }
}
