/** What single members do when layers are unpacked on the host: missing parents, links, emptied and
    removed directories. */
module MergerLaws {
  import opened Paths
  import opened Changeset
  import opened Merger
  import Tar = Layer

  // ── Missing parents ─────────────────────────────────────────────────

  /** q is p or above it, with more than k names. */
  predicate Above(k: nat, p: Path, q: Path) {
    q <= p && |q| > k
  }

  /** Below a directory of k names, p and everything above it is missing. */
  ghost predicate MissingBelow(t: Tree, k: nat, p: Path) {
    k <= |p| && ".." !in p && ClearDirAt(t, p[..k]) && forall q | q in t :: !Above(k, p, q)
  }

  /** u is t and the missing directories of p, each with mode 0755. */
  ghost predicate Made(t: Tree, k: nat, p: Path, u: Tree) {
    && (forall q :: q in u <==> q in t || Above(k, p, q))
    && (forall q | q in t :: u[q] == t[q])
    && forall q | q in u && q !in t :: u[q] == Dir(Meta(493, 0, 0))
  }

  lemma MadeClear(t: Tree, k: nat, p: Path, u: Tree)
    requires MissingBelow(t, k, p) && Made(t, k, p, u)
    ensures ClearDirAt(u, p)
  {
    forall a | [] < a <= p ensures a in u && u[a].Dir? {
      if |a| <= k {
        var top := p[..k];
        assert a == top[..|a|];
        assert a < top || a == top;
        assert a in t && t[a].Dir?;
      } else {
        assert Above(k, p, a);
      }
    }
  }

  lemma {:induction false} WalkMissing(t: Tree, from: Path, names: Path, j: nat, links: nat)
    requires j < |names| && ".." !in names && from + names[..j + 1] !in t
    requires forall i | 0 < i <= j :: from + names[..i] in t && t[from + names[..i]].Dir?
    ensures Walk(t, from, names, links) == Missing
    decreases j
  {
    assert names[0] in names && from + names[..1] == from + [names[0]];
    if j > 0 {
      var next, rest := from + [names[0]], names[1..];
      forall i | 0 <= i <= j ensures next + rest[..i] == from + names[..i + 1] {}
      WalkMissing(t, next, rest, j - 1, links);
    }
  }

  lemma FollowMissing(t: Tree, k: nat, p: Path)
    requires MissingBelow(t, k, p) && k < |p|
    ensures Follow(t, p) == Missing
  {
    forall i | 0 < i <= k ensures [] + p[..i] in t && t[[] + p[..i]].Dir? {
      assert [] + p[..i] == p[..i] <= p[..k];
    }
    assert [] + p[..k + 1] == p[..k + 1];
    WalkMissing(t, [], p, k, MAX_LINKS);
  }

  lemma PrefixOf(q: Path, p: Path)
    requires p != []
    ensures q <= p <==> q <= Parent(p) || q == p
  {
    if q <= p && q != p { assert |q| <= |Parent(p)|; }
  }

  lemma MissingParent(t: Tree, k: nat, p: Path)
    requires MissingBelow(t, k, p) && k < |p|
    ensures MissingBelow(t, k, Parent(p)) && p !in t
  {
    var d := Parent(p);
    assert d[..k] == p[..k];
    forall q | q in t ensures !Above(k, d, q) { PrefixOf(q, p); }
    assert Above(k, p, p);
  }

  lemma MadeNext(t: Tree, k: nat, p: Path, u: Tree)
    requires k < |p| && p !in t && Made(t, k, Parent(p), u)
    ensures p !in u && Made(t, k, p, u[p := Dir(Meta(493, 0, 0))])
  {
    forall q: Path ensures Above(k, p, q) <==> Above(k, Parent(p), q) || q == p { PrefixOf(q, p); }
  }

  lemma SlotAbove(t: Tree, p: Path)
    requires p != [] && ".." !in p && ClearDirAt(t, Parent(p))
    ensures Follow(t, Parent(p)) == At(Parent(p)) && Slot(t, p) == At(p)
  {
    assert Last(p) in p && p == Parent(p) + [Last(p)];
    ClearDown(t, Parent(p), Last(p));
    SlotClear(t, p);
  }

  /** The last directory, once its parents are made. */
  lemma LastMade(t: Tree, p: Path, u: Tree)
    requires p != [] && ".." !in p && MakeDirs(t, Parent(p)) == Unpacked(u) && ClearDirAt(u, Parent(p)) && p !in u
    requires u == t || Follow(t, Parent(p)) == Missing
    ensures MakeDirs(t, p) == Unpacked(u[p := Dir(Meta(493, 0, 0))])
  {
    SlotAbove(u, p);
  }

  /** The parents are there already, or the first look at them finds nothing. */
  lemma ParentsLook(t: Tree, k: nat, d: Path, u: Tree)
    requires MissingBelow(t, k, d) && Made(t, k, d, u)
    ensures u == t || Follow(t, d) == Missing
  {
    if k < |d| { FollowMissing(t, k, d); }
  }

  /** `create_dir_all` makes exactly the directories that are missing, with mode 0755. */
  lemma {:induction false} ParentsMade(t: Tree, k: nat, p: Path)
    requires MissingBelow(t, k, p)
    ensures var r := MakeDirs(t, p); r.Unpacked? && Made(t, k, p, r.tree)
    decreases |p|
  {
    if k == |p| {
      assert p[..k] == p;
      MakeDirsClear(t, p);
    } else {
      var d := Parent(p);
      MissingParent(t, k, p);
      ParentsMade(t, k, d);
      var u := MakeDirs(t, d).tree;
      MadeNext(t, k, p, u);
      MadeClear(t, k, d, u);
      ParentsLook(t, k, d, u);
      LastMade(t, p, u);
    }
  }

  // ── Hard links ──────────────────────────────────────────────────────

  /** A hard link is its source a second time, unless the source is missing, a directory or the very
      path that is replaced. */
  lemma HardLinkStep(t: Tree, k: Path, source: Path)
    requires k != [] && ClearAbove(t, k) && source != [] && ClearAbove(t, source) && (k in t ==> !t[k].Dir?)
    ensures Step(t, Upsert(k, HardLink(source))) ==
            if source in t && !t[source].Dir? && source != k then Unpacked(t[k := t[source]]) else Failed
  {
    var u := Unlink(t, k);
    ParentClear(t, k);
    MakeDirsClear(t, Parent(k));
    SlotClear(t, k);
    SlotClear(u, k);
    SlotClear(u, source);
    assert Last(source) in source;
    if k in t && source in t { assert (t - {k})[k := t[source]] == t[k := t[source]]; }
  }

  // ── Emptied and removed directories ─────────────────────────────────

  /** u is t without what `gone` holds of. */
  ghost predicate Without(t: Tree, gone: Path -> bool, u: Tree) {
    (forall q :: q in u <==> q in t && !gone(q)) && forall q | q in u :: u[q] == t[q]
  }

  lemma BelowGone(t: Tree, d: Path)
    requires ClearDirAt(t, d)
    ensures ClearDirAt(RemoveBelow(t, d), d)
  {
    forall a | [] < a < d ensures a in RemoveBelow(t, d) { assert a in t; }
  }

  lemma FollowDir(t: Tree, d: Path)
    requires ClearDirAt(t, d)
    ensures Follow(t, d) == At(d)
  {
    FollowClear(t, d);
  }

  /** An opaque marker takes away everything below its directory, and nothing else. */
  lemma EmptyStep(t: Tree, d: Path)
    requires ClearDirAt(t, d)
    ensures var r := Step(t, Empty(d)); r.Unpacked? && Without(t, q => d < q, r.tree)
  {
    FollowDir(t, d);
    BelowGone(t, d);
    FollowDir(RemoveBelow(t, d), d);
  }

  /** Where there is no directory it takes nothing away. */
  lemma EmptyNothing(t: Tree, d: Path)
    requires d != [] && ClearAbove(t, d) && (d in t ==> !t[d].Dir? && !t[d].Symlink?)
    ensures Step(t, Empty(d)) == Unpacked(t)
  {
    if d in t {
      FollowClear(t, d);
    } else {
      var k := |d| - 1;
      assert d[..k] == Parent(d) && d[..|d|] == d;
      ParentClear(t, d);
      forall q | q in t ensures !Above(k, d, q) { PrefixOf(q, d); }
      FollowMissing(t, k, d);
    }
  }

  /** A whiteout takes away its path with everything below it. */
  lemma HideStepRemoves(t: Tree, p: Path)
    requires p != [] && Last(p) != "" && Last(p) != "." && ClearAbove(t, p)
    ensures var r := Step(t, Hide(p)); r.Unpacked? && (if p in t then Without(t, q => p <= q, r.tree) else r.tree == t)
  {
    if p in t {
      HideStep(t, p);
    } else {
      assert Last(p) in p;
      SlotClear(t, p);
    }
  }

  /** Of the empty name it takes away the directory it is in; of the name `.` it fails. */
  lemma HideHolder(t: Tree, d: Path)
    requires d != [] && Last(d) != "" && Last(d) != "." && ClearDirAt(t, d)
    ensures Step(t, Hide(d + [""])) == Step(t, Hide(d)) && Step(t, Hide(d + ["."])) == Failed
  {
    assert Last(d) in d && Parent(d + [""]) == d && Parent(d + ["."]) == d;
    SlotClear(t, d);
    FollowDir(t, d);
  }

  /** A whiteout of the empty name in the root takes everything away. */
  lemma HideRoot(t: Tree)
    ensures Step(t, Hide([""])) == Unpacked(map[])
  {
  }

  // ── Chains of symlinks ──────────────────────────────────────────────

  predicate PlainName(n: Name) {
    n != "" && n != "." && n != ".." && '/' !in n
  }

  lemma {:induction false} SplitPlain(s: string, name: Name)
    requires '/' !in s
    ensures Tar.Split(s, name) == Tar.Named(name + s)
    decreases |s|
  {
    if s == "" {
      assert name + s == name;
    } else {
      SplitPlain(s[1..], name + [s[0]]);
      assert name + [s[0]] + s[1..] == name + s;
    }
  }

  lemma OneComponent(n: Name)
    requires PlainName(n)
    ensures Tar.Components(n) == [n]
  {
    SplitPlain(n, "");
    assert "" + n == n;
  }

  /** Symlinks in the root, each to the next, and a file at the end. */
  ghost predicate Chain(t: Tree, names: seq<Name>) {
    && names != [] && (forall i | 0 <= i < |names| :: PlainName(names[i]) && [names[i]] in t)
    && (forall i | 0 <= i < |names| - 1 :: t[[names[i]]].Symlink? && t[[names[i]]].target == names[i + 1])
    && t[[names[|names| - 1]]].File?
  }

  lemma {:induction false} WalkChain(t: Tree, names: seq<Name>, links: nat)
    requires Chain(t, names)
    ensures Walk(t, [], [names[0]], links) ==
            if |names| - 1 <= links then At([names[|names| - 1]]) else Blocked
    decreases links
  {
    var first := [names[0]];
    assert [] + first == first && first[1..] == [];
    if |names| > 1 && links > 0 {
      OneComponent(names[1]);
      assert [names[1]] + [] == [names[1]];
      assert t[first].target == names[1] && names[1][0] in names[1];
      var rest := names[1..];
      assert Chain(t, rest);
      WalkChain(t, rest, links - 1);
    }
  }

  /** Forty symlinks are followed, and no more. */
  lemma LinkLimit(t: Tree, names: seq<Name>)
    requires Chain(t, names)
    ensures Follow(t, [names[0]]) == if |names| <= 41 then At([names[|names| - 1]]) else Blocked
  {
    WalkChain(t, names, MAX_LINKS);
  }
}
