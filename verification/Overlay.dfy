/** The guest's build-layer tracking: capturing a manifest of the root
    filesystem and archiving its difference from a baseline. */
module Overlay {
  import opened Wrappers
  import opened Paths
  import opened Changeset

  // ── The captured filesystem ─────────────────────────────────────────

  /** A filesystem node; a directory lists its children in whatever order it is read. */
  datatype Node =
    | DirNode(meta: Meta, listing: seq<Child>)
    | FileNode(meta: Meta, digest: string)
    | LinkNode(meta: Meta, target: string)
    | SpecialNode

  datatype Child = Child(name: Name, node: Node)

  predicate DistinctNames(listing: seq<Child>) {
    && (forall i, j | 0 <= i < j < |listing| :: listing[i].name != listing[j].name)
    && (forall i | 0 <= i < |listing| :: listing[i].node.DirNode? ==> DistinctNames(listing[i].node.listing))
  }

  predicate ShouldIgnore(rel: Path) {
    ["proc"] <= rel || ["sys"] <= rel || ["tmp", "build-overlay"] <= rel
  }

  function EntryOf(node: Node): Entry
    requires !node.SpecialNode?
  {
    match node
    case DirNode(meta, _) => Dir(meta)
    case FileNode(meta, digest) => File(meta, digest)
    case LinkNode(meta, target) => Symlink(meta, target)
  }

  /** What the walk of one directory adds to a manifest. */
  function Captured(rel: Path, listing: seq<Child>): Tree
    decreases listing, 1
  {
    if listing == [] then map[]
    else Captured(rel, listing[..|listing| - 1]) + CapturedChild(rel, listing[|listing| - 1])
  }

  function CapturedChild(rel: Path, child: Child): Tree
    decreases child, 0
  {
    var path := rel + [child.name];
    if ShouldIgnore(path) || child.node.SpecialNode? then map[]
    else
      map[path := EntryOf(child.node)] +
      if child.node.DirNode? then Captured(path, child.node.listing) else map[]
  }

  function Capture(root: seq<Child>): Tree {
    Captured([], root)
  }

  /** `visit_path`: fills the manifest in place, recursing into directories. */
  method VisitPath(rel: Path, listing: seq<Child>, manifest: Tree) returns (m: Tree)
    ensures m == manifest + Captured(rel, listing)
    decreases listing, 1
  {
    m := manifest;
    for i := 0 to |listing|
      invariant m == manifest + Captured(rel, listing[..i])
    {
      CapturedNext(rel, listing, i);
      Associative(manifest, Captured(rel, listing[..i]), CapturedChild(rel, listing[i]));
      m := VisitChild(rel, listing[i], m);
    }
    assert listing[..|listing|] == listing;
  }

  /** The body of its loop. */
  method VisitChild(rel: Path, child: Child, manifest: Tree) returns (m: Tree)
    ensures m == manifest + CapturedChild(rel, child)
    decreases child, 0
  {
    m := manifest;
    var path := rel + [child.name];
    if ShouldIgnore(path) || child.node.SpecialNode? {
      return;
    }
    m := m[path := EntryOf(child.node)];
    if child.node.DirNode? {
      m := VisitPath(path, child.node.listing, m);
      Added(manifest, path, EntryOf(child.node), Captured(path, child.node.listing));
    }
  }

  lemma Added(before: Tree, path: Path, e: Entry, below: Tree)
    ensures before[path := e] + below == before + (map[path := e] + below)
  {
  }

  lemma Associative(m1: Tree, m2: Tree, m3: Tree)
    ensures (m1 + m2) + m3 == m1 + (m2 + m3)
  {
  }

  lemma CapturedNext(rel: Path, listing: seq<Child>, i: nat)
    requires i < |listing|
    ensures Captured(rel, listing[..i + 1]) == Captured(rel, listing[..i]) + CapturedChild(rel, listing[i])
  {
    assert listing[..i + 1][..i] == listing[..i];
  }

  // ── What the capture means ──────────────────────────────────────────

  function Find(listing: seq<Child>, name: Name): Option<Node> {
    if listing == [] then None
    else if listing[|listing| - 1].name == name then Some(listing[|listing| - 1].node)
    else Find(listing[..|listing| - 1], name)
  }

  /** Path lookup from a directory, name by name. */
  function Lookup(listing: seq<Child>, p: Path): Option<Node>
    requires p != []
    decreases p
  {
    match Find(listing, p[0])
    case None => None
    case Some(node) =>
      if |p| == 1 then Some(node)
      else if node.DirNode? then Lookup(node.listing, p[1..])
      else None
  }

  /** What a manifest records of a node: kind, metadata, and digest or target. */
  ghost predicate Describes(e: Entry, node: Node) {
    match node
    case DirNode(meta, _) => e == Dir(meta)
    case FileNode(meta, digest) => e == File(meta, digest)
    case LinkNode(meta, target) => e == Symlink(meta, target)
    case SpecialNode => false
  }

  ghost predicate Recorded(rel: Path, listing: seq<Child>, p: Path) {
    rel < p && !ShouldIgnore(p) && Lookup(listing, p[|rel|..]).Some? && !Lookup(listing, p[|rel|..]).value.SpecialNode?
  }

  /** A manifest records a path exactly when it is there, is not ignored and is a directory,
      file or symlink, and then records what is there. */
  lemma {:induction false} CapturedExactly(rel: Path, listing: seq<Child>, p: Path)
    requires DistinctNames(listing)
    ensures p in Captured(rel, listing) <==> Recorded(rel, listing, p)
    ensures p in Captured(rel, listing) ==> Describes(Captured(rel, listing)[p], Lookup(listing, p[|rel|..]).value)
    decreases listing, 1
  {
    if listing != [] {
      var n := |listing| - 1;
      var init, child := listing[..n], listing[n];
      CapturedExactly(rel, init, p);
      ChildExactly(rel, child, p);
      if rel < p {
        var q := p[|rel|..];
        assert p == rel + q;
        assert q[0] == child.name <==> rel + [child.name] <= p;
        if q[0] == child.name { Absent(init, child.name); }
        Alone(child, q[0]);
        assert Lookup(listing, q) == if q[0] == child.name then Lookup([child], q) else Lookup(init, q);
      }
    }
  }

  lemma {:induction false} Absent(listing: seq<Child>, name: Name)
    requires forall i | 0 <= i < |listing| :: listing[i].name != name
    ensures Find(listing, name) == None
  {
    if listing != [] { Absent(listing[..|listing| - 1], name); }
  }

  lemma Alone(child: Child, name: Name)
    ensures Find([child], name) == if child.name == name then Some(child.node) else None
  {
    assert [child][..0] == [];
  }

  lemma {:induction false} ChildExactly(rel: Path, child: Child, p: Path)
    requires child.node.DirNode? ==> DistinctNames(child.node.listing)
    ensures p in CapturedChild(rel, child) <==> Recorded(rel, [child], p)
    ensures p in CapturedChild(rel, child) ==>
              Describes(CapturedChild(rel, child)[p], Lookup([child], p[|rel|..]).value)
    decreases child, 0
  {
    var path := rel + [child.name];
    if child.node.DirNode? { CapturedExactly(path, child.node.listing, p); }
    if rel < p {
      var q := p[|rel|..];
      assert p == rel + q;
      assert q[0] == child.name <==> path <= p;
      Alone(child, q[0]);
      if path < p { assert p[|path|..] == q[1..]; }
      assert |q| == 1 && q[0] == child.name <==> path == p;
    }
  }

  /** The paths that are left out, name by name. */
  lemma IgnoredPaths(p: Path)
    ensures ShouldIgnore(p) <==>
            || (|p| >= 1 && (p[0] == "proc" || p[0] == "sys"))
            || (|p| >= 2 && p[0] == "tmp" && p[1] == "build-overlay")
  {
    if |p| >= 1 { assert p[..1] == [p[0]]; }
    if |p| >= 2 { assert p[..2] == [p[0], p[1]]; }
  }

  /** A file, directory or symlink of a disk that the walk records. */
  ghost function RecordedNode(root: seq<Child>, p: Path): Option<Node> {
    if Recorded([], root, p) then Lookup(root, p) else None
  }

  /** Nodes that a manifest does not tell apart. */
  ghost predicate SameNode(m: Node, n: Node) {
    || (m.DirNode? && n.DirNode? && m.meta == n.meta)
    || (m.FileNode? && n.FileNode? && m.meta == n.meta && m.digest == n.digest)
    || (m.LinkNode? && n.LinkNode? && m.meta == n.meta && m.target == n.target)
  }

  /** Between two disks, a path is archived exactly when it is recorded on the second one, and was not
      on the first or differs there in kind, metadata, digest or target; and it is gone exactly
      when it was recorded only on the first. */
  lemma ChangedOnDisk(r: seq<Child>, s: seq<Child>, p: Path)
    requires DistinctNames(r) && DistinctNames(s)
    ensures p in Changed(Capture(r), Capture(s)) <==>
            match (RecordedNode(r, p), RecordedNode(s, p))
            case (_, None) => false
            case (None, Some(_)) => true
            case (Some(m), Some(n)) => !SameNode(m, n)
    ensures p in Capture(r) && p !in Capture(s) <==> RecordedNode(r, p).Some? && RecordedNode(s, p).None?
  {
    CapturedExactly([], r, p);
    CapturedExactly([], s, p);
    assert p[0..] == p;
  }

  lemma {:induction false} LookupAncestors(listing: seq<Child>, p: Path, a: Path)
    requires [] < a < p && Lookup(listing, p).Some?
    ensures Lookup(listing, a).Some? && Lookup(listing, a).value.DirNode?
    decreases p
  {
    if |a| > 1 { LookupAncestors(Find(listing, p[0]).value.listing, p[1..], a[1..]); }
  }

  /** Every captured manifest is parent-closed, whatever the order directories are read in. */
  lemma CaptureWellFormed(root: seq<Child>)
    requires DistinctNames(root)
    ensures WellFormed(Capture(root))
  {
    forall p, a | p in Capture(root) && [] < a < p
      ensures p != [] && a in Capture(root) && Capture(root)[a].Dir?
    {
      CapturedExactly([], root, p);
      CapturedExactly([], root, a);
      assert p[0..] == p && a[0..] == a;
      LookupAncestors(root, p, a);
    }
    forall p | p in Capture(root) ensures p != [] { CapturedExactly([], root, p); }
  }

  // ── Diff archives ───────────────────────────────────────────────────

  /** `has_deleted_ancestor` */
  predicate HasDeletedAncestor(p: Path, deletedRoots: seq<Path>) {
    exists k | 0 < k < |p| :: p[..k] in deletedRoots
  }

  /** Topmost deleted paths. */
  function DeletedRoots(b: Tree, c: Tree): set<Path> {
    set q | q in b && q !in c && forall k | 0 < k < |q| :: q[..k] in b ==> q[..k] in c
  }

  function Changed(b: Tree, c: Tree): set<Path> {
    set p | p in c && !(p in b && b[p] == c[p])
  }

  function Whiteouts(roots: seq<Path>): (items: seq<Item>)
    requires [] !in roots
  {
    seq(|roots|, i requires 0 <= i < |roots| => WhiteoutItem(roots[i]))
  }

  function Additions(c: Tree, ps: seq<Path>): (items: seq<Item>)
    requires forall p | p in ps :: p in c
  {
    seq(|ps|, i requires 0 <= i < |ps| => Item(ps[i], c[ps[i]]))
  }

  /** The archive: whiteouts for the topmost deleted paths, then every new or changed entry,
      each list in path order. */
  function Archive(b: Tree, c: Tree): seq<Item>
    requires [] !in b
  {
    Whiteouts(SortedPaths(DeletedRoots(b, c))) + Additions(c, SortedPaths(Changed(b, c)))
  }

  /** Every deleted path lies at or below a topmost one. */
  lemma {:induction false} TopmostDeleted(b: Tree, c: Tree, p: Path) returns (q: Path)
    requires p in b && p !in c
    ensures q in DeletedRoots(b, c) && q <= p
    decreases |p|
  {
    if k :| 0 < k < |p| && p[..k] in b && p[..k] !in c {
      q := TopmostDeleted(b, c, p[..k]);
    } else {
      q := p;
    }
  }

  /** Because ancestors sort first, the roots found so far decide whether a path lies below one. */
  lemma AncestorSeen(b: Tree, c: Tree, rel: Path, roots: seq<Path>)
    requires [] !in b && rel in b && rel !in c
    requires forall q | q in roots :: q in DeletedRoots(b, c)
    requires forall q | q in DeletedRoots(b, c) && PathLt(q, rel) :: q in roots
    ensures HasDeletedAncestor(rel, roots) <==> rel !in DeletedRoots(b, c)
  {
    var q := TopmostDeleted(b, c, rel);
    if q < rel {
      AncestorFirst(q, rel);
      assert rel[..|q|] == q;
      assert HasDeletedAncestor(rel, roots);
      assert rel !in DeletedRoots(b, c);
    } else {
      assert q == rel;
    }
  }

  /** The members of s among the first i sorted keys, in order. */
  ghost predicate Selected(s: set<Path>, keys: seq<Path>, i: nat, ps: seq<Path>)
    requires i <= |keys|
  {
    Sorted(ps) && forall q :: q in ps <==> q in s && q in keys[..i]
  }

  lemma SelectedNext(s: set<Path>, keys: seq<Path>, i: nat, ps: seq<Path>)
    requires Sorted(keys) && i < |keys| && Selected(s, keys, i, ps)
    ensures Selected(s, keys, i + 1, if keys[i] in s then ps + [keys[i]] else ps)
  {
    assert keys[..i + 1] == keys[..i] + [keys[i]];
    forall a | 0 <= a < |ps| ensures PathLt(ps[a], keys[i]) {
      assert ps[a] in keys[..i];
    }
  }

  lemma SelectedAll(s: set<Path>, all: set<Path>, ps: seq<Path>)
    requires s <= all && Selected(s, SortedPaths(all), |SortedPaths(all)|, ps)
    ensures ps == SortedPaths(s)
  {
    var keys := SortedPaths(all);
    assert keys[..|keys|] == keys;
    SortedUnique(ps, SortedPaths(s));
  }

  lemma SmallerSeen(all: set<Path>, i: nat, q: Path)
    requires i < |SortedPaths(all)| && q in all && PathLt(q, SortedPaths(all)[i])
    ensures q in SortedPaths(all)[..i]
  {
    var keys := SortedPaths(all);
    var j :| 0 <= j < |keys| && keys[j] == q;
    PathIrreflexive(q);
    if i < j { PathTransitive(q, keys[i], q); }
    assert j < i && keys[..i][j] == q;
  }

  /** `build_diff_archive` */
  method BuildDiffArchive(b: Tree, c: Tree) returns (tar: seq<Item>)
    requires [] !in b
    ensures tar == Archive(b, c)
  {
    var deletedRoots: seq<Path> := [];
    tar := [];
    var keys := SortedPaths(b.Keys);
    for i := 0 to |keys|
      invariant Selected(DeletedRoots(b, c), keys, i, deletedRoots)
      invariant tar == Whiteouts(deletedRoots)
    {
      var rel := keys[i];
      SelectedNext(DeletedRoots(b, c), keys, i, deletedRoots);
      DecidedSoFar(b, c, i, deletedRoots);
      if rel in c || HasDeletedAncestor(rel, deletedRoots) {
        continue;
      }
      tar := tar + [WhiteoutItem(rel)];
      WhiteoutsNext(deletedRoots, rel);
      deletedRoots := deletedRoots + [rel];
    }
    SelectedAll(DeletedRoots(b, c), b.Keys, deletedRoots);
    tar := AppendChanged(b, c, tar);
  }

  lemma WhiteoutsNext(roots: seq<Path>, q: Path)
    requires [] !in roots && q != []
    ensures Whiteouts(roots + [q]) == Whiteouts(roots) + [WhiteoutItem(q)]
  {
  }

  lemma AdditionsNext(c: Tree, ps: seq<Path>, p: Path)
    requires p in c && forall q | q in ps :: q in c
    ensures Additions(c, ps + [p]) == Additions(c, ps) + [Item(p, c[p])]
  {
  }

  lemma DecidedSoFar(b: Tree, c: Tree, i: nat, roots: seq<Path>)
    requires [] !in b && i < |SortedPaths(b.Keys)|
    requires Selected(DeletedRoots(b, c), SortedPaths(b.Keys), i, roots)
    ensures var rel := SortedPaths(b.Keys)[i];
            rel in c || HasDeletedAncestor(rel, roots) <==> rel !in DeletedRoots(b, c)
  {
    var rel := SortedPaths(b.Keys)[i];
    assert rel in b;
    if rel !in c {
      forall q | q in DeletedRoots(b, c) && PathLt(q, rel) ensures q in roots { SmallerSeen(b.Keys, i, q); }
      AncestorSeen(b, c, rel, roots);
    }
  }

  /** Its second loop. */
  method AppendChanged(b: Tree, c: Tree, whiteouts: seq<Item>) returns (tar: seq<Item>)
    ensures tar == whiteouts + Additions(c, SortedPaths(Changed(b, c)))
  {
    tar := whiteouts;
    ghost var added: seq<Path> := [];
    var keys := SortedPaths(c.Keys);
    for i := 0 to |keys|
      invariant Selected(Changed(b, c), keys, i, added)
      invariant tar == whiteouts + Additions(c, added)
    {
      var rel := keys[i];
      SelectedNext(Changed(b, c), keys, i, added);
      assert rel in c;
      if rel in b && b[rel] == c[rel] {
        continue;
      }
      tar := tar + [Item(rel, c[rel])];
      AdditionsNext(c, added, rel);
      added := added + [rel];
    }
    SelectedAll(Changed(b, c), c.Keys, added);
  }
}
