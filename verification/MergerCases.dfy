/** Concrete layers that the host does not unpack to the tree they were taken from. */
module MergerCases {
  import opened Paths
  import opened Changeset
  import opened Overlay
  import opened DiffApply
  import Tar = Layer
  import opened Merger
  import opened MergerDiff

  // ── Layers of additions ─────────────────────────────────────────────

  /** The layer of a difference that deletes nothing. */
  lemma LayerOfAdds(b: Tree, c: Tree, adds: seq<Path>)
    requires Diffable(b, c) && DeletedRoots(b, c) == {} && Sorted(adds) && forall p :: p in adds <==> p in Changed(b, c)
    ensures |Layer(b, c)| == |adds|
    ensures forall i | 0 <= i < |adds| :: adds[i] in c && Layer(b, c)[i] == Upsert(adds[i], c[adds[i]])
  {
    assert forall q :: q !in Roots(b, c);
    SortedUnique(Adds(b, c), adds);
    LayerSize(b, c);
    forall i | 0 <= i < |adds| ensures adds[i] in c && Layer(b, c)[i] == Upsert(adds[i], c[adds[i]]) {
      PlainAdditionAt(b, c, i);
    }
  }

  lemma UnpackOne(t: Tree, a: Action)
    ensures Unpack(t, [a]) == Step(t, a)
  {
    FoldNext(Step, t, [a], 0);
    assert [a][0..] == [a];
  }

  lemma UnpackNext(t: Tree, a: Action, acts: seq<Action>)
    ensures Unpack(t, [a] + acts) == match Step(t, a) case Unpacked(u) => Unpack(u, acts) case other => other
  {
    FoldNext(Step, t, [a] + acts, 0);
    assert ([a] + acts)[0..] == [a] + acts && ([a] + acts)[1..] == acts;
  }

  lemma BuiltNext(t: Tree, p: Path, e: Entry)
    requires BuiltTree(t) && p != [] && p !in t && DirAt(t, Parent(p)) && Plainly(e)
    requires Last(p) != "" && Last(p) != "." && Last(p) != ".."
    ensures BuiltTree(t[p := e])
  {
    forall a | [] < a < p ensures a in t && t[a].Dir? { assert a == Parent(p) || a < Parent(p); }
  }

  lemma ChangedNext(b: Tree, c: Tree, p: Path, e: Entry)
    requires p !in b && p !in c
    ensures Changed(b, c[p := e]) == Changed(b, c) + {p}
  {
  }

  lemma ChangedBoth(b: Tree, c: Tree, p: Path, d: Entry, e: Entry)
    requires p !in b && p !in c && d != e
    ensures Changed(b[p := d], c[p := e]) == Changed(b, c) + {p}
  {
  }

  lemma NothingDeleted(b: Tree, c: Tree)
    requires forall p | p in b :: p in c
    ensures DeletedRoots(b, c) == {}
  {
  }

  // ── A directory becomes a file ──────────────────────────────────────

  /** A build step that replaces the directory `d` by a file gives a layer that cannot be unpacked. */
  lemma DirectoryBecomesFile(m: Meta, digest: string)
    ensures var b: Tree, c: Tree := map[["d"] := Dir(m)], map[["d"] := File(m, digest)];
            Diffable(b, c) && Unpack(ViewTree(b), Layer(b, c)) == Failed
  {
    var b: Tree, c: Tree := map[["d"] := Dir(m)], map[["d"] := File(m, digest)];
    Single("d", Dir(m));
    Single("d", File(m, digest));
    assert Last(["d"]) == "d" && !Reserved("d");
    assert FirstSortChange(b, c, ["d"]);
    ViewMatches(b);
    UnpackDiff(ViewTree(b), b, c);
  }

  // ── A symlink becomes a directory ───────────────────────────────────

  function LinkAndDir(m: Meta): Tree {
    map[["d"] := Symlink(m, "e"), ["e"] := Dir(m)]
  }

  function TwoDirs(m: Meta): Tree {
    map[["d"] := Dir(m), ["e"] := Dir(m)]
  }

  /** The symlink `d` to the directory `e`. */
  lemma LinkLeads(t: Tree)
    requires ["d"] in t && t[["d"]].Symlink? && t[["d"]].target == "e" && ["e"] in t && t[["e"]].Dir?
    ensures Follow(t, ["d"]) == At(["e"])
  {
    assert "e"[1..] == "" && "" + ['e'] == "e";
    assert Tar.Components("e") == ["e"] && [] + ["e"] == ["e"];
    FollowRootLink(t, "d");
    WalkClear(t, [], ["e"], MAX_LINKS - 1);
  }

  /** Creating the directory `d` there changes nothing, but for the mode of `e`. */
  lemma DirAtLink(t: Tree, m: Meta)
    requires ["d"] in t && t[["d"]].Symlink? && t[["d"]].target == "e"
    requires ["e"] in t && t[["e"]] == Dir(Meta(m.mode, 0, 0))
    ensures Step(t, Upsert(["d"], Dir(m))) == Unpacked(t)
  {
    LinkLeads(t);
    assert t[["e"] := Dir(Meta(m.mode, 0, 0))] == t;
    UpsertStep(t, ["d"], Dir(m));
  }

  /** A build step that replaces the symlink `d`, to the directory `e`, by a directory gives a layer
      that unpacks without an error and changes nothing: `d` is still the symlink. */
  lemma SymlinkBecomesDirectory(m: Meta)
    ensures var b, c := LinkAndDir(m), TwoDirs(m);
            && Diffable(b, c) && ViewTree(b) != ViewTree(c)
            && Unpack(ViewTree(b), Layer(b, c)) == Unpacked(ViewTree(b))
  {
    var b, c := LinkAndDir(m), TwoDirs(m);
    LinkDiff(m);
    LinkViews(m);
    LayerOfAdds(b, c, [["d"]]);
    assert Layer(b, c) == [Upsert(["d"], Dir(m))];
    UnpackOne(ViewTree(b), Upsert(["d"], Dir(m)));
    DirAtLink(ViewTree(b), m);
  }

  lemma LinkViews(m: Meta)
    ensures ViewTree(LinkAndDir(m)) ==
            map[["d"] := Symlink(Meta(0, 0, 0), "e"), ["e"] := Dir(Meta(m.mode, 0, 0))]
    ensures ViewTree(LinkAndDir(m)) != ViewTree(TwoDirs(m)) && TwoDirs(m)[["d"]] == Dir(m)
  {
    assert ["d"] != ["e"];
    assert ViewTree(LinkAndDir(m))[["d"]].Symlink? && ViewTree(TwoDirs(m))[["d"]].Dir?;
  }

  lemma LinkDiff(m: Meta)
    ensures var b, c := LinkAndDir(m), TwoDirs(m);
            Diffable(b, c) && Changed(b, c) == {["d"]} && DeletedRoots(b, c) == {}
  {
    var b, c := LinkAndDir(m), TwoDirs(m);
    LinkChanges(m);
    TwoEntries("d", Symlink(m, "e"), "e", Dir(m));
    TwoEntries("d", Dir(m), "e", Dir(m));
    assert Last(["d"]) == "d" && Last(["e"]) == "e" && !Reserved("d");
    assert BuiltTree(b) && BuiltTree(c);
  }

  lemma LinkChanges(m: Meta)
    ensures var b, c := LinkAndDir(m), TwoDirs(m); Changed(b, c) == {["d"]} && DeletedRoots(b, c) == {}
  {
    assert ["d"] != ["e"];
    NothingDeleted(LinkAndDir(m), TwoDirs(m));
  }

  lemma TwoEntries(m: Name, f: Entry, n: Name, g: Entry)
    ensures WellFormed(map[[m] := f, [n] := g])
  {
  }

  /** The next layer can hide it again: when `d` becomes the symlink again, both layers together
      end with the right tree. */
  lemma ThereAndBack(m: Meta)
    ensures var b, c := LinkAndDir(m), TwoDirs(m);
            && Diffable(b, c) && Diffable(c, b) && !SameSort(b, c, ["d"])
            && UnpackAll(ViewTree(b), [Archive(b, c), Archive(c, b)]) == Unpacked(ViewTree(b))
  {
    var b, c := LinkAndDir(m), TwoDirs(m);
    var t := ViewTree(b);
    BackDiff(m);
    SymlinkBecomesDirectory(m);
    LinkViews(m);
    BackLayer(m);
    UnpackOne(t, Upsert(["d"], Symlink(m, "e")));
    BackStep(t, m);
    UnpackAllNext(t, [], Archive(b, c));
    UnpackAllNext(t, [Archive(b, c)], Archive(c, b));
    assert [] + [Archive(b, c)] == [Archive(b, c)];
    assert [Archive(b, c)] + [Archive(c, b)] == [Archive(b, c), Archive(c, b)];
  }

  lemma BackDiff(m: Meta)
    ensures var b, c := LinkAndDir(m), TwoDirs(m);
            && Diffable(b, c) && Diffable(c, b) && Changed(c, b) == {["d"]} && DeletedRoots(c, b) == {}
            && !SameSort(b, c, ["d"]) && b[["d"]] == Symlink(m, "e")
  {
    var b, c := LinkAndDir(m), TwoDirs(m);
    LinkDiff(m);
    NothingDeleted(c, b);
    assert ["d"] != ["e"] && Last(["d"]) == "d" && !Reserved("d");
  }

  lemma BackLayer(m: Meta)
    requires Diffable(TwoDirs(m), LinkAndDir(m))
    ensures Layer(TwoDirs(m), LinkAndDir(m)) == [Upsert(["d"], Symlink(m, "e"))]
  {
    BackDiff(m);
    LayerOfAdds(TwoDirs(m), LinkAndDir(m), [["d"]]);
  }

  lemma BackStep(t: Tree, m: Meta)
    requires ["d"] in t && t[["d"]] == Symlink(Meta(0, 0, 0), "e")
    ensures Step(t, Upsert(["d"], Symlink(m, "e"))) == Unpacked(t)
  {
    assert t[["d"] := Symlink(Meta(0, 0, 0), "e")] == t;
    UpsertStep(t, ["d"], Symlink(m, "e"));
  }

  // ── With a child ────────────────────────────────────────────────────

  function WithChild(m: Meta, f: Entry): Tree {
    TwoDirs(m)[["d", "x"] := f]
  }

  /** If the new directory `d` holds a file, that ends up below `e`, again without an error. */
  lemma ChildGoesElsewhere(m: Meta, digest: string)
    ensures var b, c, f := LinkAndDir(m), WithChild(m, File(m, digest)), View(File(m, digest));
            && Diffable(b, c) && Unpack(ViewTree(b), Layer(b, c)) == Unpacked(ViewTree(b)[["e", "x"] := f])
            && ViewTree(b)[["e", "x"] := f] != ViewTree(c)
  {
    var f := File(m, digest);
    var b, c := LinkAndDir(m), WithChild(m, f);
    ChildDiff(m, f);
    LinkViews(m);
    ChildLayer(m, f);
    ChildUnpacks(ViewTree(b), m, f);
    assert ["d"] != ["e", "x"] && ViewTree(c)[["d"]].Dir?;
  }

  lemma ChildLayer(m: Meta, f: Entry)
    requires f.File? && Diffable(LinkAndDir(m), WithChild(m, f))
    ensures Layer(LinkAndDir(m), WithChild(m, f)) == [Upsert(["d"], Dir(m)), Upsert(["d", "x"], f)]
  {
    ChildDiff(m, f);
    AncestorFirst(["d"], ["d", "x"]);
    LayerOfAdds(LinkAndDir(m), WithChild(m, f), [["d"], ["d", "x"]]);
  }

  lemma ChildUnpacks(t: Tree, m: Meta, f: Entry)
    requires ["d"] in t && t[["d"]].Symlink? && t[["d"]].target == "e" && ["e", "x"] !in t && f.File?
    requires ["e"] in t && t[["e"]] == Dir(Meta(m.mode, 0, 0))
    ensures Unpack(t, [Upsert(["d"], Dir(m)), Upsert(["d", "x"], f)]) == Unpacked(t[["e", "x"] := View(f)])
  {
    var first, second := Upsert(["d"], Dir(m)), Upsert(["d", "x"], f);
    assert [first, second] == [first] + [second];
    UnpackNext(t, first, [second]);
    DirAtLink(t, m);
    UnpackOne(t, second);
    ChildAtLink(t, f);
  }

  lemma ChildAtLink(t: Tree, f: Entry)
    requires ["d"] in t && t[["d"]].Symlink? && t[["d"]].target == "e" && ["e"] in t && t[["e"]].Dir?
    requires ["e", "x"] !in t && f.File?
    ensures Step(t, Upsert(["d", "x"], f)) == Unpacked(t[["e", "x"] := View(f)])
  {
    LinkLeads(t);
    assert Parent(["d", "x"]) == ["d"] && Last(["d", "x"]) == "x" && ["e"] + ["x"] == ["e", "x"];
    PlacedWhereItLeads(t, ["d", "x"], ["e"], f);
  }

  lemma ChildDiff(m: Meta, f: Entry)
    requires f.File?
    ensures var b, c := LinkAndDir(m), WithChild(m, f);
            && Diffable(b, c) && DeletedRoots(b, c) == {}
            && Changed(b, c) == {["d"], ["d", "x"]} && c[["d"]] == Dir(m) && c[["d", "x"]] == f
  {
    var b, c := LinkAndDir(m), WithChild(m, f);
    LinkDiff(m);
    assert ["d"] != ["e"] && Parent(["d", "x"]) == ["d"] && Last(["d", "x"]) == "x";
    ChangedNext(b, TwoDirs(m), ["d", "x"], f);
    BuiltNext(TwoDirs(m), ["d", "x"], f);
    NothingDeleted(b, c);
    assert Last(["d"]) == "d" && !Reserved("d") && !Reserved("x");
  }

  // ── The symlink itself is replaced ──────────────────────────────────

  function LinkToRoot(m: Meta): Tree {
    LinkAndDir(m)[["s"] := Symlink(m, ".")]
  }

  function ChildNamedAsLink(m: Meta, f: Entry): Tree {
    TwoDirs(m)[["s"] := Dir(m)][["s", "d"] := f]
  }

  /** Not even the symlink need stay. Where `s`, a symlink to the root itself, becomes a directory
      too, the file `d` in it takes the place of the symlink `d` in the root. */
  lemma LinkReplaced(m: Meta, digest: string)
    ensures var b, c, f := LinkToRoot(m), ChildNamedAsLink(m, File(m, digest)), View(File(m, digest));
            Diffable(b, c) && Unpack(ViewTree(b), Layer(b, c)) == Unpacked(ViewTree(b)[["d"] := f])
  {
    var f := File(m, digest);
    RootDiff(m, f);
    RootLayer(m, f);
    RootViews(m);
    RootUnpacks(ViewTree(LinkToRoot(m)), m, f);
  }

  lemma RootLayer(m: Meta, f: Entry)
    requires f.File? && Diffable(LinkToRoot(m), ChildNamedAsLink(m, f))
    ensures Layer(LinkToRoot(m), ChildNamedAsLink(m, f)) ==
            [Upsert(["d"], Dir(m)), Upsert(["s"], Dir(m)), Upsert(["s", "d"], f)]
  {
    RootDiff(m, f);
    AddsSorted();
    LayerOfAdds(LinkToRoot(m), ChildNamedAsLink(m, f), [["d"], ["s"], ["s", "d"]]);
  }

  lemma RootViews(m: Meta)
    ensures var t := ViewTree(LinkToRoot(m));
            && ["d"] in t && t[["d"]] == Symlink(Meta(0, 0, 0), "e") && ["s"] in t
            && t[["s"]] == Symlink(Meta(0, 0, 0), ".") && ["e"] in t && t[["e"]] == Dir(Meta(m.mode, 0, 0))
  {
    assert ["d"] != ["e"] && ["s"] != ["e"] && ["s"] != ["d"];
  }

  lemma RootUnpacks(t: Tree, m: Meta, f: Entry)
    requires ["d"] in t && t[["d"]] == Symlink(Meta(0, 0, 0), "e") && ["s"] in t && f.File?
    requires t[["s"]] == Symlink(Meta(0, 0, 0), ".") && ["e"] in t && t[["e"]] == Dir(Meta(m.mode, 0, 0))
    ensures Unpack(t, [Upsert(["d"], Dir(m)), Upsert(["s"], Dir(m)), Upsert(["s", "d"], f)]) ==
            Unpacked(t[["d"] := View(f)])
  {
    var first, second, third := Upsert(["d"], Dir(m)), Upsert(["s"], Dir(m)), Upsert(["s", "d"], f);
    assert [first, second, third] == [first] + [second, third] && [second, third] == [second] + [third];
    UnpackNext(t, first, [second, third]);
    DirAtLink(t, m);
    UnpackNext(t, second, [third]);
    DirAtRootLink(t, m);
    UnpackOne(t, third);
    ChildReplaces(t, f);
  }

  lemma AddsSorted()
    ensures Sorted([["d"], ["s"], ["s", "d"]])
  {
    assert "d"[0] < "s"[0];
    assert NameLt("d", "s") && PathLt(["d"], ["s"]) && PathLt(["d"], ["s", "d"]);
    AncestorFirst(["s"], ["s", "d"]);
  }

  lemma RootLinkLeads(t: Tree)
    requires ["s"] in t && t[["s"]].Symlink? && t[["s"]].target == "."
    ensures Follow(t, ["s"]) == At([])
  {
    assert "."[1..] == "" && "" + ['.'] == ".";
    assert Tar.Components(".") == [];
    FollowRootLink(t, "s");
  }

  lemma DirAtRootLink(t: Tree, m: Meta)
    requires ["s"] in t && t[["s"]].Symlink? && t[["s"]].target == "."
    ensures Step(t, Upsert(["s"], Dir(m))) == Unpacked(t)
  {
    RootLinkLeads(t);
    UpsertStep(t, ["s"], Dir(m));
  }

  lemma ChildReplaces(t: Tree, f: Entry)
    requires ["s"] in t && t[["s"]].Symlink? && t[["s"]].target == "." && ["d"] in t && t[["d"]].Symlink? && f.File?
    ensures Step(t, Upsert(["s", "d"], f)) == Unpacked(t[["d"] := View(f)])
  {
    var u := t - {["d"]};
    assert ["s"] != ["d"] && [] + ["d"] == ["d"];
    RootLinkLeads(t);
    RootLinkLeads(u);
    assert Parent(["s", "d"]) == ["s"] && Last(["s", "d"]) == "d";
    PlacedWhereItLeads(t, ["s", "d"], [], f);
  }

  lemma RootDiff(m: Meta, f: Entry)
    requires f.File?
    ensures var b, c := LinkToRoot(m), ChildNamedAsLink(m, f);
            && Diffable(b, c) && DeletedRoots(b, c) == {} && Changed(b, c) == {["d"], ["s"], ["s", "d"]}
            && c[["d"]] == Dir(m) && c[["s"]] == Dir(m) && c[["s", "d"]] == f
  {
    var b, c := LinkToRoot(m), ChildNamedAsLink(m, f);
    RootChanges(m, f);
    NothingDeleted(b, c);
    RootBuilt(m, f);
    assert Last(["d"]) == "d" && Last(["s"]) == "s" && Last(["s", "d"]) == "d" && !Reserved("d") && !Reserved("s");
  }

  lemma RootChanges(m: Meta, f: Entry)
    requires f.File?
    ensures var b, c := LinkToRoot(m), ChildNamedAsLink(m, f);
            && Changed(b, c) == {["d"], ["s"], ["s", "d"]} && (forall p | p in b :: p in c)
            && c[["d"]] == Dir(m) && c[["s"]] == Dir(m) && c[["s", "d"]] == f
  {
    assert ["d"] != ["e"] && ["s"] != ["e"] && ["s"] != ["d"] && ["s", "d"] != ["s"];
    LinkChanges(m);
    ChangedBoth(LinkAndDir(m), TwoDirs(m), ["s"], Symlink(m, "."), Dir(m));
    ChangedNext(LinkToRoot(m), TwoDirs(m)[["s"] := Dir(m)], ["s", "d"], f);
  }

  lemma RootBuilt(m: Meta, f: Entry)
    requires f.File?
    ensures BuiltTree(LinkToRoot(m)) && BuiltTree(ChildNamedAsLink(m, f))
  {
    LinkDiff(m);
    assert ["s"] != ["e"] && ["s"] != ["d"] && Parent(["s"]) == [] && Parent(["s", "d"]) == ["s"];
    assert Last(["s"]) == "s" && Last(["s", "d"]) == "d";
    BuiltNext(LinkAndDir(m), ["s"], Symlink(m, "."));
    BuiltNext(TwoDirs(m), ["s"], Dir(m));
    BuiltNext(TwoDirs(m)[["s"] := Dir(m)], ["s", "d"], f);
  }
}
