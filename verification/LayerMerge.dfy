/** Applying the transformed layer is the overlayfs merge. */
module LayerMerge {
  import opened Paths
  import opened Changeset
  import opened Layer
  import opened Numbers
  import opened Wrappers

  // ── The overlayfs merge, as the reference ───────────────────────────

  /** The overlayfs opaque attribute of a member: absent, there with some other value, or `y`. */
  datatype OpaqueAttr = Unset | Odd | Yes

  /** What overlayfs has at a path of the upper tree. */
  datatype Upper =
    | Gone(path: Path)
    | Node(path: Path, entry: Entry, attr: OpaqueAttr)
  {
    /** The transformation takes any value of the attribute for opaque; overlayfs only `y`. */
    predicate Marked() {
      Node? && entry.Dir? && !attr.Unset?
    }

    predicate OpaqueDir() {
      Node? && entry.Dir? && attr.Yes?
    }
  }

  /** What overlayfs means by a member: a character device 0,0 stands for what is deleted. */
  ghost function UpperOf(m: Member): Upper {
    if m.body.Char? && m.body.major == Some(0) && m.body.minor == Some(0) then Gone(Components(m.raw))
    else Node(Components(m.raw), UpperEntry(m.body), AttrOf(m.pax))
  }

  function UpperEntry(body: Body): Entry {
    match body
    case Regular(meta, digest) => File(meta, digest)
    case Directory(meta) => Dir(meta)
    case SymLink(meta, target) => Symlink(meta, target)
    case Link(target) => HardLink(if target.Some? then Components(target.value) else [])
    case Char(meta, major, minor) =>
      Device(meta, if major.Some? then major.value else U32_MAX, if minor.Some? then minor.value else U32_MAX)
  }

  ghost function AttrOf(pax: seq<Pax>): OpaqueAttr {
    var key := "SCHILY.xattr.trusted.overlay.opaque";
    if Pax(key, "y") in pax then Yes
    else if exists value: string :: Pax(key, value) in pax then Odd
    else Unset
  }

  ghost function UpperList(tar: seq<Member>): seq<Upper> {
    seq(|tar|, i requires 0 <= i < |tar| => UpperOf(tar[i]))
  }

  predicate Blocks(u: Upper, p: Path) {
    if u.Gone? then u.path <= p
    else u.path < p && (u.OpaqueDir() || !u.entry.Dir?)
  }

  /** A lower path shows through unless something at it or above it stands in the way. */
  predicate ShowsThrough(us: seq<Upper>, p: Path) {
    forall i | 0 <= i < |us| :: us[i].path != p && !Blocks(us[i], p)
  }

  function UpperTree(us: seq<Upper>): Tree {
    if us == [] then map[]
    else
      var before, u := UpperTree(us[..|us| - 1]), us[|us| - 1];
      if u.Node? && u.path != [] then before[u.path := u.entry] else before
  }

  function Merge(lower: Tree, us: seq<Upper>): Tree {
    (map p | p in lower && ShowsThrough(us, p) :: lower[p]) + UpperTree(us)
  }

  /** An archived tree, in any order: one member per path, and a member above another is a
      directory. */
  ghost predicate ArchivedTree(us: seq<Upper>) {
    && (forall i, j | 0 <= i < j < |us| :: us[i].path != us[j].path)
    && (forall i | 0 <= i < |us| :: ".." !in us[i].path)
    && (forall i | 0 <= i < |us| && us[i].path == [] :: us[i].Node? && us[i].entry.Dir?)
    && (forall i, j | 0 <= i < |us| && 0 <= j < |us| && us[i].path < us[j].path :: us[i].Node? && us[i].entry.Dir?)
  }

  // ── How the transformed layer is read ───────────────────────────────

  function Acts(us: seq<Upper>): seq<Action> {
    if us == [] then [] else Acts(us[..|us| - 1]) + Reading(us[|us| - 1])
  }

  function Reading(u: Upper): seq<Action> {
    match u
    case Gone(p) => [if p == [] then Skip else if Last(p) == OPAQUE_SUFFIX then Empty(Parent(p)) else Hide(p)]
    case Node(p, e, _) =>
      if u.Marked() then [Meaning(Item(p, e)), Empty(p)] else [Meaning(Item(p, e))]
  }

  lemma DecodeOne(x: Item)
    ensures Decode([x]) == [Meaning(x)]
  {
  }

  lemma DecodeTwo(x: Item, y: Item)
    ensures Decode([x, y]) == [Meaning(x), Meaning(y)]
  {
  }

  lemma MarkerMeaning(d: Path)
    ensures Meaning(Item(d + [WHITEOUT_PREFIX + OPAQUE_SUFFIX], EmptyFile())) == Empty(d)
  {
    var p := d + [WHITEOUT_PREFIX + OPAQUE_SUFFIX];
    assert Parent(p) == d && Last(p) == WHITEOUT_PREFIX + OPAQUE_SUFFIX;
  }

  lemma MarkedIffXattr(m: Member)
    requires !IsOverlayWhiteout(m)
    ensures UpperOf(m).Marked() <==> HasOpaqueXattr(m) && m.body.Directory?
  {
    var key := "SCHILY.xattr.trusted.overlay.opaque";
    if i :| 0 <= i < |m.pax| && m.pax[i].key == key { assert m.pax[i] == Pax(key, m.pax[i].value); }
  }

  lemma MemberIsUpper(m: Member)
    ensures IsOverlayWhiteout(m) <==> UpperOf(m).Gone?
    ensures EntryOfBody(m.body) == UpperEntry(m.body)
  {
    if m.body.Link? && m.body.linkName.Some? { NormalizePreservesPath(m.body.linkName.value); }
  }

  lemma ReadingOne(m: Member)
    requires ".." !in Components(m.raw) && (Components(m.raw) == [] ==> m.body.Directory?)
    ensures Decode(TransformOne(m, [])) == Reading(UpperOf(m))
  {
    NormalizePreservesPath(m.raw);
    MemberIsUpper(m);
    var p := Components(m.raw);
    assert !IsExcluded(NormalizePath(m.raw), []);
    if IsOverlayWhiteout(m) {
      WhiteoutMeaning(p);
      DecodeOne(WhiteoutItem(p));
    } else {
      var entry, marker := Item(p, EntryOfBody(m.body)), Item(p + [WHITEOUT_PREFIX + OPAQUE_SUFFIX], EmptyFile());
      MarkedIffXattr(m);
      MarkerMeaning(p);
      DecodeOne(entry);
      DecodeTwo(entry, marker);
    }
  }

  /** Decoding the transformed archive, member by member. */
  lemma {:induction false} ReadingAll(tar: seq<Member>)
    requires forall i | 0 <= i < |tar| ::
               ".." !in Components(tar[i].raw) && (Components(tar[i].raw) == [] ==> tar[i].body.Directory?)
    ensures Decode(Transform(tar, [])) == Acts(UpperList(tar))
  {
    if tar != [] {
      var n := |tar| - 1;
      ReadingAll(tar[..n]);
      ReadingOne(tar[n]);
      assert UpperList(tar)[..n] == UpperList(tar[..n]);
      DecodeAdds(Transform(tar[..n], []), TransformOne(tar[n], []));
    }
  }

  lemma DecodeAdds(xs: seq<Item>, ys: seq<Item>)
    ensures Decode(xs + ys) == Decode(xs) + Decode(ys)
  {
  }

  // ── Members and actions ─────────────────────────────────────────────

  lemma {:induction false} ActsFrom(us: seq<Upper>, a: Action) returns (i: nat)
    requires a in Acts(us)
    ensures i < |us| && a in Reading(us[i])
  {
    i := |us| - 1;
    if a !in Reading(us[i]) { i := ActsFrom(us[..i], a); }
  }

  lemma {:induction false} ActsHave(us: seq<Upper>, i: nat, a: Action)
    requires i < |us| && a in Reading(us[i])
    ensures a in Acts(us)
  {
    var n := |us| - 1;
    if i < n {
      assert us[..n][i] == us[i];
      ActsHave(us[..n], i, a);
    }
  }

  lemma {:induction false} TreeFrom(us: seq<Upper>, p: Path) returns (i: nat)
    requires p in UpperTree(us)
    ensures i < |us| && us[i].Node? && us[i].path == p && p != [] && UpperTree(us)[p] == us[i].entry
  {
    i := |us| - 1;
    if !(us[i].Node? && us[i].path == p && p != []) { i := TreeFrom(us[..i], p); }
  }

  lemma {:induction false} TreeHas(us: seq<Upper>, i: nat)
    requires forall i, j | 0 <= i < j < |us| :: us[i].path != us[j].path
    requires i < |us| && us[i].Node? && us[i].path != []
    ensures us[i].path in UpperTree(us) && UpperTree(us)[us[i].path] == us[i].entry
  {
    var n := |us| - 1;
    if i < n {
      assert us[..n][i] == us[i] && us[i].path != us[n].path;
      TreeHas(us[..n], i);
    }
  }

  // ── The layer is coherent ───────────────────────────────────────────

  /** Entries are read back from nodes, under their own names. */
  lemma UpsertFrom(us: seq<Upper>, p: Path, e: Entry) returns (i: nat)
    requires Upsert(p, e) in Acts(us)
    ensures i < |us| && us[i].Node? && us[i].path == p && p != [] && us[i].entry == e && !Reserved(Last(p))
  {
    i := ActsFrom(us, Upsert(p, e));
  }

  lemma CoherentNext(acts: seq<Action>, a: Action)
    requires Coherent(acts)
    requires a.Upsert? ==> a.path != [] && forall p, e | Upsert(p, e) in acts ::
               p != a.path && (a.path < p ==> a.entry.Dir?) && (p < a.path ==> e.Dir?)
    ensures Coherent(acts + [a])
  {
    var next := acts + [a];
    assert forall i | 0 <= i < |acts| :: next[i] == acts[i];
    forall i | 0 <= i < |acts| && acts[i].Upsert? ensures Upsert(acts[i].path, acts[i].entry) in acts {
      assert acts[i] == Upsert(acts[i].path, acts[i].entry);
    }
  }

  /** Entries with another path than u, directories where one is above the other. */
  ghost predicate Beside(before: seq<Action>, u: Upper) {
    forall p, e | Upsert(p, e) in before ::
      p != u.path && (u.path < p ==> u.Node? && u.entry.Dir?) && (p < u.path ==> e.Dir?)
  }

  lemma {:induction false} ActsCoherent(us: seq<Upper>)
    requires ArchivedTree(us)
    ensures Coherent(Acts(us))
  {
    if us != [] {
      var n := |us| - 1;
      ActsCoherent(us[..n]);
      MembersBeside(us, n);
      AppendReading(Acts(us[..n]), us[n]);
    }
  }

  lemma MembersBeside(us: seq<Upper>, n: nat)
    requires ArchivedTree(us) && n < |us|
    ensures Beside(Acts(us[..n]), us[n])
  {
    forall p, e | Upsert(p, e) in Acts(us[..n])
      ensures p != us[n].path && (us[n].path < p ==> us[n].Node? && us[n].entry.Dir?) && (p < us[n].path ==> e.Dir?)
    {
      var i := UpsertFrom(us[..n], p, e);
      assert us[i].path == p && us[i].entry == e;
    }
  }

  lemma AppendReading(before: seq<Action>, u: Upper)
    requires Coherent(before) && Beside(before, u)
    ensures Coherent(before + Reading(u))
  {
    var r := Reading(u);
    CoherentNext(before, r[0]);
    if |r| == 1 {
      assert before + r == before + [r[0]];
    } else {
      CoherentNext(before + [r[0]], r[1]);
      assert before + r == before + [r[0]] + [r[1]];
    }
  }

  // ── Reading agrees with overlayfs ───────────────────────────────────

  predicate MarksEmpty(u: Upper, d: Path) {
    if u.Gone? then u.path == d + [OPAQUE_SUFFIX] else u.Marked() && u.path == d
  }

  predicate UnderOpaque(us: seq<Upper>, d: Path) {
    exists j | 0 <= j < |us| :: us[j].Node? && us[j].OpaqueDir() && us[j].path <= d
  }

  /** Where the reading of the transformed layer can go wrong: an entry whose name looks like
      a whiteout, and a directory marked opaque (by an attribute whatever its value, or by a
      whiteout that looks like the marker) though neither it nor one above it is opaque. */
  ghost predicate Unmistakable(us: seq<Upper>) {
    && (forall i | 0 <= i < |us| && us[i].Node? && us[i].path != [] :: !Reserved(Last(us[i].path)))
    && (forall i, d | 0 <= i < |us| && MarksEmpty(us[i], d) :: UnderOpaque(us, d))
  }

  lemma UpperEntries(us: seq<Upper>)
    requires ArchivedTree(us) && Unmistakable(us)
    ensures Entries(Acts(us)) == UpperTree(us)
  {
    var acts, entries, tree := Acts(us), Entries(Acts(us)), UpperTree(us);
    ActsCoherent(us);
    forall p | p in entries ensures p in tree && tree[p] == entries[p] {
      EntriesFrom(acts, p);
      var i := UpsertFrom(us, p, entries[p]);
      TreeHas(us, i);
    }
    forall p | p in tree ensures p in entries {
      var i := TreeFrom(us, p);
      assert Reading(us[i])[0] == Upsert(p, us[i].entry);
      ActsHave(us, i, Upsert(p, us[i].entry));
      var k :| 0 <= k < |acts| && acts[k] == Upsert(p, us[i].entry);
      EntriesHave(acts, k);
    }
  }

  lemma HiddenBy(acts: seq<Action>, a: Action, p: Path)
    requires a in acts && Hides(a, p)
    ensures Hidden(acts, p)
  {
    var j :| 0 <= j < |acts| && acts[j] == a;
  }

  /** A whiteout at or above p, or an opaque directory above it, hides p. */
  lemma BlockerHides(us: seq<Upper>, i: nat, p: Path)
    requires ArchivedTree(us) && i < |us|
    requires if us[i].Gone? then us[i].path <= p else us[i].OpaqueDir() && us[i].path < p
    ensures Hidden(Acts(us), p)
  {
    var r := Reading(us[i]);
    var a := r[|r| - 1];
    ActsHave(us, i, a);
    if us[i].Gone? { assert Parent(us[i].path) < p; }
    HiddenBy(Acts(us), a, p);
  }

  /** Without misreadings, hiding comes from whiteouts and markers only. */
  lemma HidingMember(u: Upper, a: Action)
    requires a in Reading(u) && (u.Node? && u.path != [] ==> !Reserved(Last(u.path)))
    ensures a.Hide? ==> u.Gone? && a.path == u.path
    ensures a.Empty? ==> MarksEmpty(u, a.dir)
  {
    if u.path != [] { assert Parent(u.path) + [Last(u.path)] == u.path; }
  }

  lemma HiddenBlocked(us: seq<Upper>, p: Path)
    requires ArchivedTree(us) && Unmistakable(us) && Hidden(Acts(us), p)
    ensures !ShowsThrough(us, p)
  {
    var acts := Acts(us);
    var j :| 0 <= j < |acts| && Hides(acts[j], p);
    var i := ActsFrom(us, acts[j]);
    HidingMember(us[i], acts[j]);
    if acts[j].Empty? {
      assert UnderOpaque(us, acts[j].dir);
      var k :| 0 <= k < |us| && us[k].Node? && us[k].OpaqueDir() && us[k].path <= acts[j].dir;
      assert Blocks(us[k], p);
    } else {
      assert Blocks(us[i], p);
    }
  }

  lemma CoveredBlocked(us: seq<Upper>, p: Path)
    requires Covered(UpperTree(us), p)
    ensures !ShowsThrough(us, p)
  {
    var tree := UpperTree(us);
    var a :| a in tree && a < p && !tree[a].Dir?;
    var i := TreeFrom(us, a);
    assert Blocks(us[i], p);
  }

  lemma BlockedGone(us: seq<Upper>, p: Path)
    requires ArchivedTree(us) && Unmistakable(us) && p !in UpperTree(us) && !ShowsThrough(us, p) && p != []
    ensures Hidden(Acts(us), p) || Covered(UpperTree(us), p)
  {
    var i :| 0 <= i < |us| && !(us[i].path != p && !Blocks(us[i], p));
    if us[i].Node? && us[i].path != [] { TreeHas(us, i); }
    if us[i].Gone? || us[i].OpaqueDir() { BlockerHides(us, i, p); }
  }

  lemma MergeAt(us: seq<Upper>, p: Path)
    requires ArchivedTree(us) && Unmistakable(us) && p !in UpperTree(us) && p != []
    ensures ShowsThrough(us, p) <==> !Hidden(Acts(us), p) && !Covered(UpperTree(us), p)
  {
    if Hidden(Acts(us), p) { HiddenBlocked(us, p); }
    if Covered(UpperTree(us), p) { CoveredBlocked(us, p); }
    if !ShowsThrough(us, p) { BlockedGone(us, p); }
  }

  lemma UnmistakableMerges(us: seq<Upper>, lower: Tree)
    requires ArchivedTree(us) && Unmistakable(us) && WellFormed(lower)
    ensures Apply(lower, Acts(us)) == Merge(lower, us)
  {
    ActsCoherent(us);
    ApplyOverlays(lower, Acts(us));
    UpperEntries(us);
    var r, m := Overlaid(Uncovered(lower, Acts(us)), UpperTree(us)), Merge(lower, us);
    forall p: Path ensures SameAt(r, m, p) { MergesAt(us, lower, p); }
    SameEverywhere(r, m);
  }

  lemma MergesAt(us: seq<Upper>, lower: Tree, p: Path)
    requires ArchivedTree(us) && Unmistakable(us) && WellFormed(lower)
    ensures SameAt(Overlaid(Uncovered(lower, Acts(us)), UpperTree(us)), Merge(lower, us), p)
  {
    if p in lower && p !in UpperTree(us) { MergeAt(us, p); }
  }

  // ── And only then ───────────────────────────────────────────────────

  ghost predicate AlwaysMerges(us: seq<Upper>) {
    forall lower: Tree | WellFormed(lower) :: Apply(lower, Acts(us)) == Merge(lower, us)
  }

  /** A reserved entry is lost even on an empty lower tree. */
  lemma ReservedEntryLost(us: seq<Upper>, i: nat)
    requires ArchivedTree(us) && i < |us| && us[i].Node? && us[i].path != [] && Reserved(Last(us[i].path))
    ensures Apply(map[], Acts(us)) != Merge(map[], us)
  {
    var p := us[i].path;
    TreeHas(us, i);
    var r := Apply(map[], Acts(us));
    if p in r {
      PutAllSources(Uncovered(map[], Acts(us)), Acts(us), p);
      var j := UpsertFrom(us, p, r[p]);
    }
  }

  /** A name no member has. */
  function LongestName(us: seq<Upper>): nat {
    if us == [] then 0
    else
      var rest, p := LongestName(us[..|us| - 1]), us[|us| - 1].path;
      if p != [] && |Last(p)| > rest then |Last(p)| else rest
  }

  lemma {:induction false} NamesBounded(us: seq<Upper>, i: nat)
    requires i < |us| && us[i].path != []
    ensures |Last(us[i].path)| <= LongestName(us)
  {
    var n := |us| - 1;
    if i < n {
      assert us[..n][i] == us[i];
      NamesBounded(us[..n], i);
    }
  }

  function FreshName(us: seq<Upper>): Name {
    seq(LongestName(us) + 1, i => 'a')
  }

  /** A lower tree holding one file, below d, whose name the upper tree does not use. */
  function Witness(us: seq<Upper>, d: Path): Tree {
    (map k | 0 < k <= |d| :: d[..k] := Dir(Meta(0, 0, 0)))[d + [FreshName(us)] := EmptyFile()]
  }

  lemma WitnessWellFormed(us: seq<Upper>, d: Path)
    ensures WellFormed(Witness(us, d))
  {
    var w, p := Witness(us, d), d + [FreshName(us)];
    forall q, a | q in w && [] < a < q ensures a in w && w[a].Dir? {
      assert a <= d;
      assert d[..|a|] == a;
    }
  }

  lemma FreshShows(us: seq<Upper>, i: nat, d: Path)
    requires ArchivedTree(us) && i < |us| && MarksEmpty(us[i], d) && !UnderOpaque(us, d)
    ensures ShowsThrough(us, d + [FreshName(us)])
  {
    var p := d + [FreshName(us)];
    assert Last(p) == FreshName(us);
    forall j | 0 <= j < |us| ensures us[j].path != p && !Blocks(us[j], p) {
      if us[j].path != [] { NamesBounded(us, j); }
      if us[j].path <= d { AboveMark(us, i, d, j); }
      assert us[j].path < p ==> us[j].path <= d;
    }
  }

  lemma MarkHides(us: seq<Upper>, i: nat, d: Path, p: Path)
    requires i < |us| && MarksEmpty(us[i], d) && d < p
    ensures Hidden(Acts(us), p)
  {
    var r := Reading(us[i]);
    var a := r[|r| - 1];
    if us[i].Gone? { assert Parent(us[i].path) == d && Last(us[i].path) == OPAQUE_SUFFIX; }
    ActsHave(us, i, a);
    HiddenBy(Acts(us), a, p);
  }

  /** A directory wrongly marked opaque loses the file below it. */
  lemma WrongMarkLoses(us: seq<Upper>, i: nat, d: Path)
    requires ArchivedTree(us) && i < |us| && MarksEmpty(us[i], d) && !UnderOpaque(us, d)
    ensures Apply(Witness(us, d), Acts(us)) != Merge(Witness(us, d), us)
  {
    var p, w := d + [FreshName(us)], Witness(us, d);
    FreshShows(us, i, d);
    assert p in Merge(w, us);
    MarkHides(us, i, d, p);
    if p in Apply(w, Acts(us)) {
      PutAllSources(Uncovered(w, Acts(us)), Acts(us), p);
      var j := UpsertFrom(us, p, Apply(w, Acts(us))[p]);
    }
  }

  /** Above and at a marked directory, the upper tree has only directories that are not opaque. */
  lemma AboveMark(us: seq<Upper>, i: nat, d: Path, j: nat)
    requires ArchivedTree(us) && i < |us| && j < |us| && MarksEmpty(us[i], d) && !UnderOpaque(us, d)
    requires us[j].path <= d
    ensures us[j].Node? && us[j].entry.Dir? && !us[j].OpaqueDir()
  {
    assert us[j].path < us[i].path || us[j].path == us[i].path;
  }

  /** On every lower tree the transformed layer is read as overlayfs shows the upper tree, if
      and only if nothing in it can be mistaken. */
  lemma TransformMeansMerge(us: seq<Upper>)
    requires ArchivedTree(us)
    ensures AlwaysMerges(us) <==> Unmistakable(us)
  {
    if Unmistakable(us) {
      forall lower: Tree | WellFormed(lower) ensures Apply(lower, Acts(us)) == Merge(lower, us) {
        UnmistakableMerges(us, lower);
      }
    }
    if AlwaysMerges(us) {
      forall i | 0 <= i < |us| && us[i].Node? && us[i].path != [] ensures !Reserved(Last(us[i].path)) {
        if Reserved(Last(us[i].path)) { ReservedEntryLost(us, i); }
      }
      forall i, d | 0 <= i < |us| && MarksEmpty(us[i], d) ensures UnderOpaque(us, d) {
        if !UnderOpaque(us, d) {
          WrongMarkLoses(us, i, d);
          WitnessWellFormed(us, d);
        }
      }
    }
  }

  lemma WholeTarMeansMerge(tar: seq<Member>)
    requires ArchivedTree(UpperList(tar))
    ensures (forall lower: Tree | WellFormed(lower) ::
               Apply(lower, Decode(Transform(tar, []))) == Merge(lower, UpperList(tar))) <==>
            Unmistakable(UpperList(tar))
  {
    var us := UpperList(tar);
    forall i | 0 <= i < |tar|
      ensures ".." !in Components(tar[i].raw) && (Components(tar[i].raw) == [] ==> tar[i].body.Directory?)
    {
      assert us[i] == UpperOf(tar[i]);
    }
    ReadingAll(tar);
    TransformMeansMerge(us);
  }

  /** The same, for the archive itself: transforming an archived upper tree and applying the result
      to any lower tree is the overlayfs merge of the members that are not excluded, if and only
      if nothing in them can be mistaken. */
  lemma TransformTarMeansMerge(tar: seq<Member>, excluded: seq<string>)
    requires ArchivedTree(UpperList(Remaining(tar, excluded)))
    ensures (forall lower: Tree | WellFormed(lower) ::
               Apply(lower, Decode(Transform(tar, excluded))) == Merge(lower, UpperList(Remaining(tar, excluded)))) <==>
            Unmistakable(UpperList(Remaining(tar, excluded)))
  {
    ExclusionDrops(tar, excluded);
    WholeTarMeansMerge(Remaining(tar, excluded));
  }

  /** It does happen: a directory whose opaque attribute has another value than `y` is marked all the
      same, and then some lower tree loses what overlayfs shows. */
  lemma OtherValueMarked(m: Meta, value: string)
    requires value != "y"
    ensures var tar := [Member("d", Directory(m), [Pax(OVERLAY_OPAQUE_XATTR, value)])];
            ArchivedTree(UpperList(tar)) &&
            exists lower: Tree :: WellFormed(lower) &&
              Apply(lower, Decode(Transform(tar, []))) != Merge(lower, UpperList(tar))
  {
    var tar := [Member("d", Directory(m), [Pax(OVERLAY_OPAQUE_XATTR, value)])];
    var us := UpperList(tar);
    assert "d"[1..] == "" && "" + ['d'] == "d";
    assert Components("d") == ["d"];
    assert tar[0].pax[0].key == OVERLAY_OPAQUE_XATTR && HasOpaqueXattr(tar[0]);
    assert Pax(OVERLAY_OPAQUE_XATTR, "y") !in tar[0].pax;
    assert us[0] == Node(["d"], Dir(m), Odd);
    assert MarksEmpty(us[0], ["d"]) && !UnderOpaque(us, ["d"]);
    WholeTarMeansMerge(tar);
  }

  // ── Reading the transformed layer in order ──────────────────────────

  /** Read after an entry at p, the member u takes that entry away. */
  predicate TooLateFor(u: Upper, p: Path) {
    if u.Gone? then u.path != [] && (if Last(u.path) == OPAQUE_SUFFIX then Parent(u.path) < p else u.path <= p)
    else u.Marked() && u.path < p
  }

  /** Member n takes no entry before it away. */
  ghost predicate InTime(us: seq<Upper>, n: nat)
    requires n < |us|
  {
    forall i | 0 <= i < n && us[i].Node? :: !TooLateFor(us[n], us[i].path)
  }

  ghost predicate MembersInTime(us: seq<Upper>) {
    forall j | 0 <= j < |us| :: InTime(us, j)
  }

  lemma MembersInTimeNext(us: seq<Upper>)
    requires us != []
    ensures MembersInTime(us) <==> MembersInTime(us[..|us| - 1]) && InTime(us, |us| - 1)
  {
    var n := |us| - 1;
    forall j | 0 <= j < n ensures InTime(us, j) <==> InTime(us[..n], j) {
      assert forall i | 0 <= i <= j :: us[..n][i] == us[i];
    }
  }

  ghost predicate NoneReserved(us: seq<Upper>) {
    forall i | 0 <= i < |us| && us[i].Node? && us[i].path != [] :: !Reserved(Last(us[i].path))
  }

  /** Nothing already read is hidden by a. */
  ghost predicate Spares(acts: seq<Action>, a: Action) {
    forall p, e | Upsert(p, e) in acts :: !Hides(a, p)
  }

  lemma InTimeNext(acts: seq<Action>, a: Action)
    ensures WhiteoutsInTime(acts + [a]) <==> WhiteoutsInTime(acts) && Spares(acts, a)
  {
    var next := acts + [a];
    assert forall i | 0 <= i < |acts| :: next[i] == acts[i];
    assert next[|acts|] == a;
    if WhiteoutsInTime(acts) && Spares(acts, a) {
      forall i | 0 <= i < |acts| && acts[i].Upsert? ensures !Hides(a, acts[i].path) {
        assert Upsert(acts[i].path, acts[i].entry) == acts[i];
      }
    }
    if WhiteoutsInTime(next) {
      forall p, e | Upsert(p, e) in acts ensures !Hides(a, p) {
        var i :| 0 <= i < |acts| && acts[i] == Upsert(p, e);
        assert next[i] == acts[i];
      }
      forall i, j | 0 <= i < j < |acts| && acts[i].Upsert? ensures !Hides(acts[j], acts[i].path) {
        assert next[i] == acts[i] && next[j] == acts[j];
      }
    }
  }

  ghost predicate SparesAll(before: seq<Action>, u: Upper) {
    forall p, e | Upsert(p, e) in before :: !TooLateFor(u, p)
  }

  lemma AppendInTime(before: seq<Action>, u: Upper)
    requires u.Node? && u.path != [] ==> !Reserved(Last(u.path))
    ensures WhiteoutsInTime(before + Reading(u)) <==> WhiteoutsInTime(before) && SparesAll(before, u)
  {
    var r := Reading(u);
    InTimeNext(before, r[0]);
    if |r| == 1 {
      assert before + r == before + [r[0]];
    } else {
      assert r[1] == Empty(u.path) && (r[0].Upsert? ==> r[0].path == u.path);
      forall p, e ensures Upsert(p, e) in before + [r[0]] <==> Upsert(p, e) in before || Upsert(p, e) == r[0] {}
      InTimeNext(before + [r[0]], r[1]);
      assert before + r == before + [r[0]] + [r[1]];
    }
  }

  /** What is read before a member are the nodes before it. */
  lemma SparedNodes(us: seq<Upper>, n: nat)
    requires n < |us| && NoneReserved(us)
    ensures SparesAll(Acts(us[..n]), us[n]) <==> InTime(us, n)
  {
    var init := us[..n];
    if SparesAll(Acts(init), us[n]) {
      forall i | 0 <= i < n && us[i].Node? ensures !TooLateFor(us[n], us[i].path) {
        if us[i].path != [] {
          assert init[i] == us[i] && Reading(us[i])[0] == Upsert(us[i].path, us[i].entry);
          ActsHave(init, i, Upsert(us[i].path, us[i].entry));
        }
      }
    }
    if InTime(us, n) {
      forall p, e | Upsert(p, e) in Acts(init) ensures !TooLateFor(us[n], p) {
        var i := UpsertFrom(init, p, e);
        assert us[i] == init[i];
      }
    }
  }

  lemma {:induction false} MarkersInTime(us: seq<Upper>)
    requires NoneReserved(us)
    ensures WhiteoutsInTime(Acts(us)) <==> MembersInTime(us)
  {
    if us != [] {
      var n := |us| - 1;
      MembersInTimeNext(us);
      MarkersInTime(us[..n]);
      AppendInTime(Acts(us[..n]), us[n]);
      SparedNodes(us, n);
    }
  }

  /** Even a reader that acts on each member as it comes ends with the overlayfs merge, if and
      only if no marker follows what its own layer puts below it. */
  lemma InOrderMeansMerge(us: seq<Upper>, lower: Tree)
    requires ArchivedTree(us) && Unmistakable(us) && WellFormed(lower)
    ensures ApplyInOrder(lower, Acts(us)) == Merge(lower, us) <==> MembersInTime(us)
  {
    MarkersInTime(us);
    ActsCoherent(us);
    InOrderAgrees(lower, Acts(us));
    UnmistakableMerges(us, lower);
  }

  /** A marker comes right after its directory. So archives that list a directory before what it
      holds are in time, unless a whiteout is for the one name that makes it a marker. */
  lemma DirectoriesFirst(us: seq<Upper>)
    requires ArchivedTree(us)
    requires forall i, j | 0 <= i < |us| && 0 <= j < |us| && us[i].path < us[j].path :: i < j
    requires forall i | 0 <= i < |us| && us[i].Gone? && us[i].path != [] :: Last(us[i].path) != OPAQUE_SUFFIX
    ensures MembersInTime(us)
  {
    forall i, j | 0 <= i < j < |us| && us[i].Node? ensures !TooLateFor(us[j], us[i].path) {
      var p, q := us[i].path, us[j].path;
      assert p != q && !(q < p);
    }
  }
}
