/** Filesystem trees, layer archives and the meaning the OCI Image Layer
    Filesystem Changeset specification gives to applying one to the other
    (sections "Changeset over existing files", "Whiteouts" and "Opaque
    Whiteout"). */
module Changeset {
  import opened Paths

  /** Permission bits and ownership; the file-type bits of `st_mode` are the constructor. */
  datatype Meta = Meta(mode: nat, uid: nat, gid: nat)

  /** What one path holds. File content is represented by its digest. */
  datatype Entry =
    | Dir(meta: Meta)
    | File(meta: Meta, digest: string)
    | Symlink(meta: Meta, target: string)
    | HardLink(source: Path)
    | Device(meta: Meta, major: nat, minor: nat)

  type Tree = map<Path, Entry>

  /** Every proper ancestor of a path is there, and is a directory. The root itself has no entry. */
  ghost predicate WellFormed(t: Tree) {
    forall p | p in t :: p != [] && forall a | [] < a < p :: a in t && t[a].Dir?
  }

  ghost predicate SameAt(r: Tree, c: Tree, p: Path) {
    (p in r <==> p in c) && (p in r && p in c ==> r[p] == c[p])
  }

  lemma SameEverywhere(r: Tree, c: Tree)
    ensures r == c <==> forall p: Path :: SameAt(r, c, p)
  {
    if forall p: Path :: SameAt(r, c, p) {
      forall p: Path ensures (p in r <==> p in c) && (p in r ==> r[p] == c[p]) { assert SameAt(r, c, p); }
    }
  }

  // ── Archive members ─────────────────────────────────────────────────

  datatype Item = Item(path: Path, entry: Entry)

  const WHITEOUT_PREFIX: Name := ".wh."
  const OPAQUE_SUFFIX: Name := ".wh..opq"

  predicate Reserved(n: Name) {
    WHITEOUT_PREFIX <= n
  }

  /** How a reader of a layer understands a member. */
  datatype Action = Hide(path: Path) | Empty(dir: Path) | Upsert(path: Path, entry: Entry) | Skip

  /** A member for the root itself carries no name and is skipped. */
  function Meaning(it: Item): Action {
    if it.path == [] then Skip
    else
    var n := Last(it.path);
    if !Reserved(n) then Upsert(it.path, it.entry)
    else if n == WHITEOUT_PREFIX + OPAQUE_SUFFIX then Empty(Parent(it.path))
    else Hide(Parent(it.path) + [n[|WHITEOUT_PREFIX|..]])
  }

  function Decode(items: seq<Item>): seq<Action> {
    seq(|items|, i requires 0 <= i < |items| => Meaning(items[i]))
  }

  function EmptyFile(): Entry {
    File(Meta(0x1A4, 0, 0), "")
  }

  /** The member both archive writers emit to delete q. */
  function WhiteoutItem(q: Path): Item
    requires q != []
  {
    Item(Parent(q) + [WHITEOUT_PREFIX + Last(q)], EmptyFile())
  }

  /** An empty file of mode 0644, it is read as deleting q, unless q's name turns it into an opaque whiteout. */
  lemma WhiteoutMeaning(q: Path)
    requires q != []
    ensures Meaning(WhiteoutItem(q)) == if Last(q) == OPAQUE_SUFFIX then Empty(Parent(q)) else Hide(q)
    ensures WhiteoutItem(q).path == Parent(q) + [".wh." + Last(q)]
    ensures WhiteoutItem(q).entry.File? && WhiteoutItem(q).entry.meta.mode == 420 && WhiteoutItem(q).entry.digest == ""
  {
    var n := WHITEOUT_PREFIX + Last(q);
    assert Last(WhiteoutItem(q).path) == n && Parent(WhiteoutItem(q).path) == Parent(q);
    assert n[|WHITEOUT_PREFIX|..] == Last(q);
    assert Parent(q) + [Last(q)] == q;
    assert n == WHITEOUT_PREFIX + OPAQUE_SUFFIX ==> Last(q) == OPAQUE_SUFFIX;
  }

  // ── Applying a layer ────────────────────────────────────────────────

  /** A whiteout hides its target and everything below; an opaque whiteout everything below its directory. */
  predicate Hides(a: Action, p: Path) {
    (a.Hide? && a.path <= p) || (a.Empty? && a.dir < p)
  }

  predicate Hidden(acts: seq<Action>, p: Path) {
    exists i | 0 <= i < |acts| :: Hides(acts[i], p)
  }

  /** Whiteouts act on the lower tree only. */
  function Uncovered(lower: Tree, acts: seq<Action>): Tree {
    map p | p in lower && !Hidden(acts, p) :: lower[p]
  }

  /** Place one entry: a directory takes the place of what was there and keeps what is below it
      (a tree has nothing below anything else); any other entry removes what was there, with
      everything below it, and recreates the path. */
  function Put(t: Tree, p: Path, e: Entry): Tree {
    if e.Dir? then t[p := e] else (map q | q in t && !(p < q) :: t[q])[p := e]
  }

  /** On a tree: a directory over a directory replaces its attributes, and in all other cases the
      existing path is removed and recreated. */
  lemma PutReplaces(t: Tree, p: Path, e: Entry)
    requires WellFormed(t) && p != []
    ensures Put(t, p, e) ==
            if e.Dir? && p in t && t[p].Dir? then t[p := e] else (map q | q in t && !(p < q) :: t[q])[p := e]
  {
    forall q | q in t && p < q ensures p in t && t[p].Dir? { assert [] < p < q; }
  }

  function PutAll(t: Tree, acts: seq<Action>): Tree {
    if acts == [] then t
    else
      var before := PutAll(t, acts[..|acts| - 1]);
      match acts[|acts| - 1]
      case Upsert(p, e) => Put(before, p, e)
      case _ => before
  }

  /** The tree a layer makes of the tree below it. */
  function Apply(lower: Tree, acts: seq<Action>): Tree {
    PutAll(Uncovered(lower, acts), acts)
  }

  // ── What Apply computes, without naming the order ───────────────────

  function Entries(acts: seq<Action>): Tree {
    if acts == [] then map[]
    else
      var before := Entries(acts[..|acts| - 1]);
      match acts[|acts| - 1]
      case Upsert(p, e) => before[p := e]
      case _ => before
  }

  /** Entries have distinct paths, and an entry above another is a directory. */
  ghost predicate Coherent(acts: seq<Action>) {
    && (forall i | 0 <= i < |acts| && acts[i].Upsert? :: acts[i].path != [])
    && forall i, j | 0 <= i < |acts| && 0 <= j < |acts| && i != j && acts[i].Upsert? && acts[j].Upsert? ::
         && acts[i].path != acts[j].path
         && (acts[i].path < acts[j].path ==> acts[i].entry.Dir?)
  }

  /** A non-directory is placed above p. */
  predicate Covered(entries: Tree, p: Path) {
    exists k | k in entries :: k < p && !entries[k].Dir?
  }

  function Overlaid(t: Tree, entries: Tree): Tree {
    (map p | p in t && !Covered(entries, p) :: t[p]) + entries
  }

  lemma {:induction false} EntriesFrom(acts: seq<Action>, p: Path)
    requires p in Entries(acts)
    ensures Upsert(p, Entries(acts)[p]) in acts
  {
    var n := |acts| - 1;
    assert acts == acts[..n] + [acts[n]];
    if acts[n] != Upsert(p, Entries(acts)[p]) { EntriesFrom(acts[..n], p); }
  }

  lemma {:induction false} EntriesHave(acts: seq<Action>, i: nat)
    requires Coherent(acts) && i < |acts| && acts[i].Upsert?
    ensures acts[i].path in Entries(acts) && Entries(acts)[acts[i].path] == acts[i].entry
  {
    var n := |acts| - 1;
    if i < n {
      assert acts[..n][i] == acts[i];
      assert acts[n].Upsert? ==> acts[i].path != acts[n].path;
      EntriesHave(acts[..n], i);
    }
  }

  /** Placing coherent entries one by one, in any order, is one simultaneous overlay. */
  lemma {:induction false} PutAllOverlays(t: Tree, acts: seq<Action>)
    requires Coherent(acts)
    ensures PutAll(t, acts) == Overlaid(t, Entries(acts))
  {
    if acts == [] {
      assert Overlaid(t, map[]) == t;
    } else {
      var n := |acts| - 1;
      var init, a := acts[..n], acts[n];
      assert acts == init + [a];
      assert forall i | 0 <= i < n :: init[i] == acts[i];
      PutAllOverlays(t, init);
      if a.Upsert? {
        forall q | q in Entries(init) ensures q != a.path && (a.path < q ==> a.entry.Dir?) { EarlierEntry(init, a, q); }
        PutOverlays(t, Entries(init), a.path, a.entry);
      }
    }
  }

  lemma EarlierEntry(init: seq<Action>, a: Action, q: Path)
    requires Coherent(init + [a]) && q in Entries(init) && a.Upsert?
    ensures q != a.path && (a.path < q ==> a.entry.Dir?)
  {
    var acts := init + [a];
    EntriesFrom(init, q);
    var i :| 0 <= i < |init| && init[i] == Upsert(q, Entries(init)[q]);
    assert acts[i] == init[i] && acts[|init|] == a;
  }

  lemma CoveredNext(entries: Tree, k: Path, e: Entry, p: Path)
    requires k !in entries
    ensures Covered(entries[k := e], p) <==> Covered(entries, p) || (k < p && !e.Dir?)
  {
    var after := entries[k := e];
    if Covered(entries, p) {
      var a :| a in entries && a < p && !entries[a].Dir?;
      assert a in after && after[a] == entries[a];
    }
    if k < p && !e.Dir? { assert k in after; }
  }

  /** What one more `Put` drops is exactly what a non-directory covers. */
  lemma PutOverlays(t: Tree, entries: Tree, k: Path, e: Entry)
    requires forall q | q in entries :: q != k && (k < q ==> e.Dir?)
    ensures Put(Overlaid(t, entries), k, e) == Overlaid(t, entries[k := e])
  {
    var before, after := Put(Overlaid(t, entries), k, e), Overlaid(t, entries[k := e]);
    forall q
      ensures q in before <==> q in after
      ensures q in before ==> before[q] == after[q]
    {
      CoveredNext(entries, k, e, q);
    }
  }

  /** Applying a coherent layer: what is left of the lower tree, overlaid with the entries. */
  lemma ApplyOverlays(lower: Tree, acts: seq<Action>)
    requires Coherent(acts)
    ensures Apply(lower, acts) == Overlaid(Uncovered(lower, acts), Entries(acts))
  {
    PutAllOverlays(Uncovered(lower, acts), acts);
  }

  /** Whatever the layer, a path of the result was left from below or placed by the layer. */
  lemma {:induction false} PutAllSources(t: Tree, acts: seq<Action>, p: Path)
    requires p in PutAll(t, acts)
    ensures (p in t && PutAll(t, acts)[p] == t[p]) || Upsert(p, PutAll(t, acts)[p]) in acts
  {
    if acts != [] {
      var n := |acts| - 1;
      var before := PutAll(t, acts[..n]);
      assert acts == acts[..n] + [acts[n]];
      if p in before { PutAllSources(t, acts[..n], p); }
    }
  }

  // ── Reading members one after another ───────────────────────────────

  /** A reader that acts on each member as it comes, whiteouts included. */
  function ApplyInOrder(lower: Tree, acts: seq<Action>): Tree {
    if acts == [] then lower
    else
      var before, a := ApplyInOrder(lower, acts[..|acts| - 1]), acts[|acts| - 1];
      if a.Upsert? then Put(before, a.path, a.entry)
      else map p | p in before && !Hides(a, p) :: before[p]
  }

  /** No whiteout comes after an entry of the same layer that it would hide. */
  ghost predicate WhiteoutsInTime(acts: seq<Action>) {
    forall i, j | 0 <= i < j < |acts| && acts[i].Upsert? :: !Hides(acts[j], acts[i].path)
  }

  lemma HidesNext(t: Tree, init: seq<Action>, a: Action)
    ensures Uncovered(t, init + [a]) == map p | p in Uncovered(t, init) && !Hides(a, p) :: t[p]
  {
    var acts := init + [a];
    forall p ensures Hidden(acts, p) <==> Hidden(init, p) || Hides(a, p) {
      if Hidden(init, p) {
        var i :| 0 <= i < |init| && Hides(init[i], p);
        assert acts[i] == init[i];
      }
      if Hides(a, p) { assert acts[|init|] == a; }
    }
  }

  /** Then reading in order gives what the layer means. */
  lemma {:induction false} InOrderOverlays(lower: Tree, acts: seq<Action>)
    requires Coherent(acts) && WhiteoutsInTime(acts)
    ensures ApplyInOrder(lower, acts) == Overlaid(Uncovered(lower, acts), Entries(acts))
  {
    if acts == [] {
      assert Uncovered(lower, acts) == lower && Overlaid(lower, map[]) == lower;
    } else {
      var n := |acts| - 1;
      var init, a := acts[..n], acts[n];
      assert acts == init + [a];
      assert forall i | 0 <= i < n :: init[i] == acts[i];
      InOrderOverlays(lower, init);
      if a.Upsert? {
        forall q | q in Entries(init) ensures q != a.path && (a.path < q ==> a.entry.Dir?) { EarlierEntry(init, a, q); }
        UpsertOverlaid(lower, init, a);
      } else {
        forall q | q in Entries(init) ensures !Hides(a, q) { EntrySpared(init, a, q); }
        HideOverlaid(lower, init, a);
      }
    }
  }

  lemma UpsertOverlaid(lower: Tree, init: seq<Action>, a: Action)
    requires a.Upsert? && forall q | q in Entries(init) :: q != a.path && (a.path < q ==> a.entry.Dir?)
    ensures Put(Overlaid(Uncovered(lower, init), Entries(init)), a.path, a.entry) ==
            Overlaid(Uncovered(lower, init + [a]), Entries(init)[a.path := a.entry])
  {
    assert Uncovered(lower, init + [a]) == Uncovered(lower, init) by { HidesNext(lower, init, a); }
    PutOverlays(Uncovered(lower, init), Entries(init), a.path, a.entry);
  }

  lemma EntrySpared(init: seq<Action>, a: Action, q: Path)
    requires WhiteoutsInTime(init + [a]) && q in Entries(init)
    ensures !Hides(a, q)
  {
    var acts := init + [a];
    EntriesFrom(init, q);
    var i :| 0 <= i < |init| && init[i] == Upsert(q, Entries(init)[q]);
    assert acts[i] == init[i] && acts[|init|] == a;
  }

  lemma HideOverlaid(lower: Tree, init: seq<Action>, a: Action)
    requires forall q | q in Entries(init) :: !Hides(a, q)
    ensures (map p | p in Overlaid(Uncovered(lower, init), Entries(init)) && !Hides(a, p) ::
               Overlaid(Uncovered(lower, init), Entries(init))[p]) ==
            Overlaid(Uncovered(lower, init + [a]), Entries(init))
  {
    HidesNext(lower, init, a);
  }

  /** An entry that a later whiteout hides is gone for good. */
  lemma {:induction false} LateWhiteoutLoses(lower: Tree, acts: seq<Action>, i: nat, j: nat)
    requires Coherent(acts) && i < j < |acts| && acts[i].Upsert? && Hides(acts[j], acts[i].path)
    ensures acts[i].path !in ApplyInOrder(lower, acts)
  {
    var n := |acts| - 1;
    if j < n {
      var init := acts[..n];
      assert forall k | 0 <= k < n :: init[k] == acts[k];
      LateWhiteoutLoses(lower, init, i, j);
      assert acts[n].Upsert? ==> acts[n].path != acts[i].path;
    }
  }

  /** A reader that acts on each member as it comes ends with what the layer means, if and only
      if no whiteout comes too late. */
  lemma InOrderAgrees(lower: Tree, acts: seq<Action>)
    requires Coherent(acts)
    ensures ApplyInOrder(lower, acts) == Apply(lower, acts) <==> WhiteoutsInTime(acts)
  {
    ApplyOverlays(lower, acts);
    if WhiteoutsInTime(acts) {
      InOrderOverlays(lower, acts);
    } else {
      var i, j :| 0 <= i < j < |acts| && acts[i].Upsert? && Hides(acts[j], acts[i].path);
      LateWhiteoutLoses(lower, acts, i, j);
      EntriesHave(acts, i);
    }
  }
}
