/** Diffing two manifests and applying the archive undo each other. */
module DiffApply {
  import opened Paths
  import opened Changeset
  import opened Overlay

  function Layer(b: Tree, c: Tree): seq<Action>
    requires [] !in b
  {
    Decode(Archive(b, c))
  }

  /** The two ways a name can be misread: an added or changed path whose own name looks like a
      whiteout, and a deleted path whose whiteout looks like an opaque one and so hides
      unchanged paths beside it. */
  ghost predicate Unambiguous(b: Tree, c: Tree)
    requires [] !in b && [] !in c
  {
    && (forall p | p in Changed(b, c) :: !Reserved(Last(p)))
    && (forall q, p | q in DeletedRoots(b, c) && Last(q) == OPAQUE_SUFFIX && p in c && Parent(q) < p ::
          p in Changed(b, c))
  }

  // ── Whiteouts ───────────────────────────────────────────────────────

  lemma RootsApart(b: Tree, c: Tree, q: Path, r: Path)
    requires q in DeletedRoots(b, c) && r in DeletedRoots(b, c) && q != []
    ensures !(q < r)
  {
    assert q <= r ==> r[..|q|] == q;
  }

  lemma RootNotAbove(b: Tree, c: Tree, q: Path, p: Path)
    requires WellFormed(c) && q in DeletedRoots(b, c) && p in c && q != []
    ensures !(q <= p)
  {
    assert q <= p ==> q == p || q < p;
  }

  /** The whiteouts form an antichain, cover exactly the deleted paths, and touch no path that
      is still there. */
  lemma WhiteoutsExact(b: Tree, c: Tree)
    requires WellFormed(b) && WellFormed(c)
    ensures forall q, r | q in DeletedRoots(b, c) && r in DeletedRoots(b, c) :: !(q < r)
    ensures forall p, q | p in c && q in DeletedRoots(b, c) :: !(q <= p)
    ensures forall p | p in b && p !in c :: exists q | q in DeletedRoots(b, c) :: q <= p
  {
    forall q, r | q in DeletedRoots(b, c) && r in DeletedRoots(b, c) ensures !(q < r) { RootsApart(b, c, q, r); }
    forall p, q | p in c && q in DeletedRoots(b, c) ensures !(q <= p) { RootNotAbove(b, c, q, p); }
    forall p | p in b && p !in c ensures exists q | q in DeletedRoots(b, c) :: q <= p {
      var q := TopmostDeleted(b, c, p);
    }
  }

  // ── The members of the layer ────────────────────────────────────────

  function Roots(b: Tree, c: Tree): seq<Path> {
    SortedPaths(DeletedRoots(b, c))
  }

  function Adds(b: Tree, c: Tree): seq<Path> {
    SortedPaths(Changed(b, c))
  }

  lemma LayerSize(b: Tree, c: Tree)
    requires [] !in b && [] !in c
    ensures |Layer(b, c)| == |Roots(b, c)| + |Adds(b, c)|
  {
  }

  lemma WhiteoutAt(b: Tree, c: Tree, i: nat)
    requires [] !in b && [] !in c && i < |Roots(b, c)| && i < |Layer(b, c)|
    ensures Roots(b, c)[i] in DeletedRoots(b, c)
    ensures Layer(b, c)[i] ==
            if Last(Roots(b, c)[i]) == OPAQUE_SUFFIX then Empty(Parent(Roots(b, c)[i])) else Hide(Roots(b, c)[i])
  {
    var q := Roots(b, c)[i];
    assert q in Roots(b, c);
    assert Archive(b, c)[i] == WhiteoutItem(q);
    WhiteoutMeaning(q);
  }

  lemma AdditionAt(b: Tree, c: Tree, j: nat)
    requires [] !in b && [] !in c && j < |Adds(b, c)| && |Roots(b, c)| + j < |Layer(b, c)|
    ensures Adds(b, c)[j] in Changed(b, c)
    ensures Layer(b, c)[|Roots(b, c)| + j] == Meaning(Item(Adds(b, c)[j], c[Adds(b, c)[j]]))
  {
    var p := Adds(b, c)[j];
    assert p in Adds(b, c);
    assert Archive(b, c)[|Roots(b, c)| + j] == Item(p, c[p]);
  }

  /** An entry of the layer comes from a changed path, under its own name. */
  lemma LayerUpsert(b: Tree, c: Tree, i: nat) returns (j: nat)
    requires [] !in b && [] !in c && i < |Layer(b, c)| && Layer(b, c)[i].Upsert?
    ensures i == |Roots(b, c)| + j && j < |Adds(b, c)|
    ensures Layer(b, c)[i].path == Adds(b, c)[j] && Adds(b, c)[j] in Changed(b, c) && !Reserved(Last(Adds(b, c)[j]))
    ensures Layer(b, c)[i].entry == c[Adds(b, c)[j]]
  {
    LayerSize(b, c);
    if i < |Roots(b, c)| { WhiteoutAt(b, c, i); }
    j := i - |Roots(b, c)|;
    AdditionAt(b, c, j);
  }

  lemma LayerHides(b: Tree, c: Tree, q: Path, p: Path)
    requires [] !in b && [] !in c && q in DeletedRoots(b, c)
    requires if Last(q) == OPAQUE_SUFFIX then Parent(q) < p else q <= p
    ensures Hidden(Layer(b, c), p)
  {
    assert q in Roots(b, c);
    var i :| 0 <= i < |Roots(b, c)| && Roots(b, c)[i] == q;
    LayerSize(b, c);
    WhiteoutAt(b, c, i);
    assert Hides(Layer(b, c)[i], p);
  }

  // ── Exactness ───────────────────────────────────────────────────────

  /** Anything misread makes the result differ from c. */
  lemma MisreadLoses(b: Tree, c: Tree)
    requires WellFormed(b) && WellFormed(c) && Apply(b, Layer(b, c)) == c
    ensures Unambiguous(b, c)
  {
    var acts := Layer(b, c);
    var t := Uncovered(b, acts);
    forall p | p in c
      ensures p in Changed(b, c) ==> !Reserved(Last(p))
      ensures p !in Changed(b, c) ==> !Hidden(acts, p)
    {
      PutAllSources(t, acts, p);
      if Upsert(p, c[p]) in acts {
        var i :| 0 <= i < |acts| && acts[i] == Upsert(p, c[p]);
        var _ := LayerUpsert(b, c, i);
      }
    }
    forall q, p | q in DeletedRoots(b, c) && Last(q) == OPAQUE_SUFFIX && p in c && Parent(q) < p
      ensures p in Changed(b, c)
    {
      LayerHides(b, c, q, p);
    }
  }

  lemma LayerCoherent(b: Tree, c: Tree)
    requires WellFormed(b) && WellFormed(c)
    ensures Coherent(Layer(b, c))
  {
    var acts := Layer(b, c);
    SortedDistinct(Adds(b, c));
    forall i | 0 <= i < |acts| && acts[i].Upsert? ensures acts[i].path != [] {
      var _ := LayerUpsert(b, c, i);
    }
    forall i, j | 0 <= i < |acts| && 0 <= j < |acts| && i != j && acts[i].Upsert? && acts[j].Upsert?
      ensures acts[i].path != acts[j].path
      ensures acts[i].path < acts[j].path ==> acts[i].entry.Dir?
    {
      var _ := LayerUpsert(b, c, i);
      var _ := LayerUpsert(b, c, j);
    }
  }

  lemma DeletedHidden(b: Tree, c: Tree, p: Path)
    requires WellFormed(b) && WellFormed(c) && p in b && p !in c
    ensures Hidden(Layer(b, c), p)
  {
    var q := TopmostDeleted(b, c, p);
    assert Parent(q) < p;
    LayerHides(b, c, q, p);
  }

  /** Without misreadings only the whiteouts hide anything. */
  lemma Hider(b: Tree, c: Tree, p: Path) returns (q: Path)
    requires [] !in b && [] !in c && Unambiguous(b, c) && Hidden(Layer(b, c), p)
    ensures q in DeletedRoots(b, c)
    ensures if Last(q) == OPAQUE_SUFFIX then Parent(q) < p else q <= p
  {
    var i :| 0 <= i < |Layer(b, c)| && Hides(Layer(b, c)[i], p);
    LayerSize(b, c);
    if |Roots(b, c)| <= i { AdditionAt(b, c, i - |Roots(b, c)|); }
    WhiteoutAt(b, c, i);
    q := Roots(b, c)[i];
  }

  lemma UnchangedLeft(b: Tree, c: Tree, p: Path)
    requires WellFormed(b) && WellFormed(c) && Unambiguous(b, c) && p in c && p !in Changed(b, c)
    ensures !Hidden(Layer(b, c), p)
  {
    if Hidden(Layer(b, c), p) {
      var q := Hider(b, c, p);
      RootNotAbove(b, c, q, p);
    }
  }

  lemma LayerEntry(b: Tree, c: Tree, p: Path)
    requires WellFormed(b) && WellFormed(c) && p in Changed(b, c) && !Reserved(Last(p))
    ensures Upsert(p, c[p]) in Layer(b, c)
  {
    assert p in Adds(b, c);
    var j :| 0 <= j < |Adds(b, c)| && Adds(b, c)[j] == p;
    LayerSize(b, c);
    AdditionAt(b, c, j);
    assert Layer(b, c)[|Roots(b, c)| + j] == Upsert(p, c[p]);
  }

  lemma LayerEntries(b: Tree, c: Tree, p: Path)
    requires WellFormed(b) && WellFormed(c)
    ensures p in Entries(Layer(b, c)) <==> p in Changed(b, c) && !Reserved(Last(p))
    ensures p in Entries(Layer(b, c)) ==> Entries(Layer(b, c))[p] == c[p]
  {
    var acts := Layer(b, c);
    LayerCoherent(b, c);
    if p in Entries(acts) {
      EntriesFrom(acts, p);
      var i :| 0 <= i < |acts| && acts[i] == Upsert(p, Entries(acts)[p]);
      var _ := LayerUpsert(b, c, i);
    }
    if p in Changed(b, c) && !Reserved(Last(p)) {
      LayerEntry(b, c, p);
      var i :| 0 <= i < |acts| && acts[i] == Upsert(p, c[p]);
      EntriesHave(acts, i);
    }
  }

  lemma UnambiguousRestores(b: Tree, c: Tree)
    requires WellFormed(b) && WellFormed(c) && Unambiguous(b, c)
    ensures Apply(b, Layer(b, c)) == c
  {
    var acts := Layer(b, c);
    LayerCoherent(b, c);
    ApplyOverlays(b, acts);
    var r := Overlaid(Uncovered(b, acts), Entries(acts));
    forall p
      ensures p in r <==> p in c
      ensures p in r ==> r[p] == c[p]
    {
      LayerEntries(b, c, p);
      if p in b && p !in c { DeletedHidden(b, c, p); }
      if p in c && p !in Changed(b, c) { UnchangedLeft(b, c, p); }
      if p in c && Covered(Entries(acts), p) {
        var k :| k in Entries(acts) && k < p && !Entries(acts)[k].Dir?;
        LayerEntries(b, c, k);
      }
    }
  }

  /** Applying the archive of the difference to the baseline gives the current tree, whatever
      was added, deleted or changed kind, exactly when no name can be misread. */
  lemma DiffThenApply(b: Tree, c: Tree)
    requires WellFormed(b) && WellFormed(c)
    ensures Apply(b, Layer(b, c)) == c <==> Unambiguous(b, c)
  {
    if Unambiguous(b, c) { UnambiguousRestores(b, c); }
    if Apply(b, Layer(b, c)) == c { MisreadLoses(b, c); }
  }

  /** Both ways of being misread happen: a file called `.wh.x` is lost when it is added, and deleting a
      file called `.wh..opq` takes the files beside it along. */
  lemma MisreadNames(f: Entry)
    ensures var added: Tree := map[[".wh.x"] := f];
            WellFormed(added) && Apply(map[], Layer(map[], added)) != added
    ensures var both: Tree, kept: Tree := map[["k"] := f, [".wh..opq"] := f], map[["k"] := f];
            WellFormed(both) && WellFormed(kept) && Apply(both, Layer(both, kept)) != kept
  {
    var none: Tree, added: Tree := map[], map[[".wh.x"] := f];
    assert WellFormed(none);
    Single(".wh.x", f);
    assert [".wh.x"] in Changed(none, added) && Last([".wh.x"]) == ".wh.x" && Reserved(".wh.x");
    DiffThenApply(none, added);

    var both: Tree, kept: Tree := map[["k"] := f, [".wh..opq"] := f], map[["k"] := f];
    Single("k", f);
    Pair("k", ".wh..opq", f);
    assert [".wh..opq"] != ["k"];
    assert [".wh..opq"] in DeletedRoots(both, kept);
    assert Last([".wh..opq"]) == OPAQUE_SUFFIX && Parent([".wh..opq"]) == [];
    assert ["k"] in kept && ["k"] !in Changed(both, kept) && [] < ["k"];
    DiffThenApply(both, kept);
  }

  lemma Single(n: Name, f: Entry)
    ensures WellFormed(map[[n] := f])
  {
  }

  lemma Pair(m: Name, n: Name, f: Entry)
    ensures WellFormed(map[[m] := f, [n] := f])
  {
  }

  /** A diff lists its whiteouts first, so it may also be applied member by member. */
  lemma DiffInOrder(b: Tree, c: Tree, lower: Tree)
    requires WellFormed(b) && WellFormed(c) && Unambiguous(b, c)
    ensures ApplyInOrder(lower, Layer(b, c)) == Apply(lower, Layer(b, c))
  {
    var acts := Layer(b, c);
    forall i, j | 0 <= i < j < |acts| && acts[i].Upsert? ensures !Hides(acts[j], acts[i].path) {
      var k := LayerUpsert(b, c, i);
      LayerSize(b, c);
      AdditionAt(b, c, j - |Roots(b, c)|);
    }
    LayerCoherent(b, c);
    InOrderAgrees(lower, acts);
  }

  // ── Trees without reserved names ────────────────────────────────────

  ghost predicate Plain(t: Tree) {
    forall p | p in t :: p != [] && !Reserved(Last(p))
  }

  lemma PlainUnambiguous(b: Tree, c: Tree)
    requires Plain(b) && Plain(c)
    ensures Unambiguous(b, c)
  {
    assert Reserved(OPAQUE_SUFFIX);
  }

  // ── Applying a diff to another tree ─────────────────────────────────

  /** What the layer of b and c says about a path: that it is there, with c's entry; or that
      nothing of the tree below is, because of a whiteout, of a changed name read as one, or of
      a non-directory above. */
  ghost predicate Placed(b: Tree, c: Tree, p: Path)
    requires [] !in b && [] !in c
  {
    p in Changed(b, c) && !Reserved(Last(p))
  }

  ghost predicate Struck(b: Tree, c: Tree, p: Path)
    requires [] !in b && [] !in c
  {
    || (exists q | q in DeletedRoots(b, c) :: Hides(Meaning(WhiteoutItem(q)), p))
    || (exists k | k in Changed(b, c) :: Hides(Meaning(Item(k, c[k])), p))
    || (exists k | Placed(b, c, k) :: k < p && !c[k].Dir?)
  }

  /** s agrees with c on what the layer leaves unsaid about p. */
  ghost predicate FilledIn(s: Tree, b: Tree, c: Tree, p: Path)
    requires [] !in b && [] !in c
  {
    || Placed(b, c, p)
    || (if p in c then p in s && s[p] == c[p] && !Struck(b, c, p) else p in s ==> Struck(b, c, p))
  }

  ghost predicate FillsIn(s: Tree, b: Tree, c: Tree)
    requires [] !in b && [] !in c
  {
    forall p: Path :: FilledIn(s, b, c, p)
  }

  lemma LayerHidden(b: Tree, c: Tree, p: Path)
    requires WellFormed(b) && WellFormed(c)
    ensures Hidden(Layer(b, c), p) <==>
            || (exists q | q in DeletedRoots(b, c) :: Hides(Meaning(WhiteoutItem(q)), p))
            || (exists k | k in Changed(b, c) :: Hides(Meaning(Item(k, c[k])), p))
  {
    if i :| 0 <= i < |Layer(b, c)| && Hides(Layer(b, c)[i], p) { MemberHides(b, c, i, p); }
    if q :| q in DeletedRoots(b, c) && Hides(Meaning(WhiteoutItem(q)), p) {
      WhiteoutMeaning(q);
      LayerHides(b, c, q, p);
    }
    if k :| k in Changed(b, c) && Hides(Meaning(Item(k, c[k])), p) { ChangeHides(b, c, k, p); }
  }

  lemma ChangeHides(b: Tree, c: Tree, k: Path, p: Path)
    requires WellFormed(b) && WellFormed(c) && k in Changed(b, c) && Hides(Meaning(Item(k, c[k])), p)
    ensures Hidden(Layer(b, c), p)
  {
    assert k in Adds(b, c);
    var j :| 0 <= j < |Adds(b, c)| && Adds(b, c)[j] == k;
    LayerSize(b, c);
    AdditionAt(b, c, j);
    assert Hides(Layer(b, c)[|Roots(b, c)| + j], p);
  }

  lemma MemberHides(b: Tree, c: Tree, i: nat, p: Path)
    requires WellFormed(b) && WellFormed(c) && i < |Layer(b, c)| && Hides(Layer(b, c)[i], p)
    ensures || (exists q | q in DeletedRoots(b, c) :: Hides(Meaning(WhiteoutItem(q)), p))
            || (exists k | k in Changed(b, c) :: Hides(Meaning(Item(k, c[k])), p))
  {
    LayerSize(b, c);
    if i < |Roots(b, c)| {
      WhiteoutAt(b, c, i);
      WhiteoutMeaning(Roots(b, c)[i]);
    } else {
      AdditionAt(b, c, i - |Roots(b, c)|);
    }
  }

  /** What the layer makes of any tree, path by path. */
  lemma ApplyElsewhereAt(s: Tree, b: Tree, c: Tree, p: Path)
    requires WellFormed(b) && WellFormed(c)
    ensures var r := Apply(s, Layer(b, c));
            if Placed(b, c, p) then p in r && r[p] == c[p]
            else if p in s && !Struck(b, c, p) then p in r && r[p] == s[p]
            else p !in r
  {
    LayerCoherent(b, c);
    ApplyOverlays(s, Layer(b, c));
    LayerEntries(b, c, p);
    LayerHidden(b, c, p);
    LayerCovers(b, c, p);
  }

  lemma LayerCovers(b: Tree, c: Tree, p: Path)
    requires WellFormed(b) && WellFormed(c)
    ensures Covered(Entries(Layer(b, c)), p) <==> exists k | Placed(b, c, k) :: k < p && !c[k].Dir?
  {
    var entries := Entries(Layer(b, c));
    if k :| k in entries && k < p && !entries[k].Dir? { LayerEntries(b, c, k); }
    if k :| Placed(b, c, k) && k < p && !c[k].Dir? { LayerEntries(b, c, k); }
  }

  /** A layer only says how c differs from b. On another tree s it produces c exactly when s
      already agrees with everything the layer leaves unsaid. */
  lemma ApplyElsewhere(s: Tree, b: Tree, c: Tree)
    requires WellFormed(b) && WellFormed(c)
    ensures Apply(s, Layer(b, c)) == c <==> FillsIn(s, b, c)
  {
    var r := Apply(s, Layer(b, c));
    forall p: Path ensures SameAt(r, c, p) <==> FilledIn(s, b, c, p) { ApplyElsewhereAt(s, b, c, p); }
    SameEverywhere(r, c);
  }
}
