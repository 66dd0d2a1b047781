/** The host's own unpacking of layers into a root filesystem, member by
    member, with the failures the filesystem calls produce. */
module Merger {
  import opened Paths
  import opened Changeset
  import Tar = Layer

  /** Unpacking keeps permission bits but not ownership, and a symlink has no mode of its own. */
  function View(e: Entry): Entry {
    match e
    case Dir(meta) => Dir(Meta(meta.mode, 0, 0))
    case File(meta, digest) => File(Meta(meta.mode, 0, 0), digest)
    case Symlink(_, target) => Symlink(Meta(0, 0, 0), target)
    case _ => e
  }

  function ViewTree(t: Tree): Tree {
    map p | p in t :: View(t[p])
  }

  /** What of an entry is on disk again after unpacking: the kind, and the mode of a directory, mode
      and content of a file, or target of a symlink. */
  ghost predicate Kept(e: Entry, r: Entry) {
    match e
    case Dir(meta) => r.Dir? && r.meta.mode == meta.mode
    case File(meta, digest) => r.File? && r.meta.mode == meta.mode && r.digest == digest
    case Symlink(_, target) => r.Symlink? && r.target == target
    case _ => r == e
  }

  lemma ViewKeeps(e: Entry)
    ensures Kept(e, View(e))
  {
  }

  /** The tree c, as far as unpacking keeps it. */
  ghost predicate Matches(c: Tree, t: Tree) {
    t.Keys == c.Keys && forall p | p in c :: Kept(c[p], t[p])
  }

  lemma ViewMatches(t: Tree)
    ensures Matches(t, ViewTree(t))
  {
  }

  /** Diverted: the tree does not decide what happens. The code leaves it through a symlink, or
      removes a directory by a path that goes through what it removes. */
  datatype Outcome = Unpacked(tree: Tree) | Failed | Diverted

  // ── Where a path leads ──────────────────────────────────────────────

  /** At a path of the tree without symlinks, or the error: a name that is not there; a name below
      something that is no directory, or too many symlinks. */
  datatype Place = At(path: Path) | Missing | Blocked | Outside

  /** The number of symlinks the kernel follows for one path. */
  const MAX_LINKS: nat := 40

  /** Going on from a directory, following every symlink. */
  function Walk(t: Tree, from: Path, names: Path, links: nat): Place
    decreases links, |names|
  {
    if names == [] then At(from)
    else if names[0] == ".." then
      if from == [] then Outside else Walk(t, Parent(from), names[1..], links)
    else
      var next := from + [names[0]];
      if next !in t then Missing
      else match t[next]
        case Dir(_) => Walk(t, next, names[1..], links)
        case Symlink(_, target) =>
          if links == 0 then Blocked
          else if target == "" then Missing
          else if target[0] == '/' then Outside
          else Walk(t, from, Tar.Components(target) + names[1..], links - 1)
        case _ => if |names| == 1 then At(next) else Blocked
  }

  function Follow(t: Tree, p: Path): Place {
    Walk(t, [], p, MAX_LINKS)
  }

  /** The root has no entry of its own. */
  predicate DirAt(t: Tree, q: Path) {
    q == [] || (q in t && t[q].Dir?)
  }

  /** The place of the last name itself: symlinks above it are followed, but not one in its place. */
  function Slot(t: Tree, p: Path): Place
    requires p != []
  {
    match Follow(t, Parent(p))
    case At(q) => if DirAt(t, q) then At(q + [Last(p)]) else Blocked
    case other => other
  }

  // ── The file system calls ───────────────────────────────────────────

  /** `mkdir`, content with a directory that is there, or at the end of a symlink. */
  function MakeDir(t: Tree, p: Path): Outcome
    requires p != []
  {
    match Slot(t, p)
    case Outside => Diverted
    case At(q) =>
      if q !in t then Unpacked(t[q := Dir(Meta(0x1ED, 0, 0))])
      else
        (match Follow(t, p)
         case At(r) => if DirAt(t, r) then Unpacked(t) else Failed
         case Outside => Diverted
         case _ => Failed)
    case _ => Failed
  }

  /** `create_dir_all` */
  function MakeDirs(t: Tree, p: Path): Outcome
    decreases |p|
  {
    if p == [] then Unpacked(t)
    else if Follow(t, Parent(p)) != Missing then MakeDir(t, p)
    else match MakeDirs(t, Parent(p))
      case Unpacked(u) => MakeDir(u, p)
      case other => other
  }

  /** `set_permissions`, which follows symlinks. */
  function SetMode(t: Tree, p: Path, mode: nat): Outcome {
    match Follow(t, p)
    case At(q) => Unpacked(if q != [] && q in t && t[q].Dir? then t[q := Dir(Meta(mode, 0, 0))] else t)
    case Outside => Diverted
    case _ => Failed
  }

  /** `remove_file`, whose failures the caller ignores. */
  function Unlink(t: Tree, p: Path): Tree
    requires p != []
  {
    match Slot(t, p)
    case At(q) => if q in t && !t[q].Dir? then t - {q} else t
    case _ => t
  }

  /** Creating what must not be there. */
  function CreateNew(t: Tree, p: Path, e: Entry): Outcome
    requires p != []
  {
    match Slot(t, p)
    case Outside => Diverted
    case At(q) => if q in t then Failed else Unpacked(t[q := e])
    case _ => Failed
  }

  /** A hard link shares what its source is, which must not be a directory. */
  function CreateLink(t: Tree, p: Path, source: Path): Outcome
    requires p != []
  {
    if source == [] || Last(source) == ".." then Failed
    else match Slot(t, source)
      case Outside => Diverted
      case At(s) => if s in t && !t[s].Dir? then CreateNew(t, p, t[s]) else Failed
      case _ => Failed
  }

  function RemoveAt(t: Tree, p: Path): Tree {
    map q | q in t && !(p <= q) :: t[q]
  }

  function RemoveBelow(t: Tree, p: Path): Tree {
    map q | q in t && !(p < q) :: t[q]
  }

  /** `remove_entry`; what is not there, or cannot be reached, is left alone. */
  function Remove(t: Tree, p: Path): Outcome
    requires p != []
  {
    match Slot(t, p)
    case Outside => Diverted
    case At(q) =>
      if q !in t then Unpacked(t)
      else if Slot(RemoveBelow(t, q), p) == At(q) then Unpacked(RemoveAt(t, q))
      else Diverted
    case _ => Unpacked(t)
  }

  /** A whiteout of the empty name means the directory it is in, which cannot be removed by the
      name of a symlink. */
  function RemoveHolder(t: Tree, d: Path): Outcome {
    if d == [] then Unpacked(map[])
    else match Follow(t, d)
      case Outside => Diverted
      case At(q) =>
        if !DirAt(t, q) then Unpacked(t)
        else if Slot(t, d) == At(q) then Remove(t, d)
        else Failed
      case _ => Unpacked(t)
  }

  /** The name `.` cannot be removed either, though what is in the directory is. */
  function RemoveDot(t: Tree, d: Path): Outcome {
    match Follow(t, d)
    case Outside => Diverted
    case At(q) => if DirAt(t, q) then Failed else Unpacked(t)
    case _ => Unpacked(t)
  }

  /** `clear_directory` */
  function ClearDir(t: Tree, d: Path): Outcome {
    match Follow(t, d)
    case Outside => Diverted
    case At(q) =>
      if !DirAt(t, q) then Unpacked(t)
      else if Follow(RemoveBelow(t, q), d) == At(q) then Unpacked(RemoveBelow(t, q))
      else Diverted
    case _ => Unpacked(t)
  }

  // ── Members ─────────────────────────────────────────────────────────

  function HideOne(t: Tree, p: Path): Outcome
    requires p != []
  {
    if ".." in Parent(p) then Failed
    else if Last(p) == "" then RemoveHolder(t, Parent(p))
    else if Last(p) == "." then RemoveDot(t, Parent(p))
    else if Last(p) == ".." then Diverted
    else Remove(t, p)
  }

  /** Any entry but a directory, once the directory it goes to is there. */
  function PlaceEntry(t: Tree, p: Path, e: Entry): Outcome
    requires p != []
  {
    var u := Unlink(t, p);
    if e.HardLink? then CreateLink(u, p, e.source)
    else if e.Symlink? && e.target == "" then Failed
    else CreateNew(u, p, View(e))
  }

  function UpsertOne(t: Tree, p: Path, e: Entry): Outcome
    requires p != []
  {
    if ".." in p then Failed
    else if e.Device? then Unpacked(t)
    else if e.Dir? then
      (match MakeDirs(t, p)
       case Unpacked(u) => SetMode(u, p, e.meta.mode)
       case other => other)
    else
      (match MakeDirs(t, Parent(p))
       case Unpacked(u) => PlaceEntry(u, p, e)
       case other => other)
  }

  function Step(t: Tree, a: Action): Outcome {
    match a
    case Skip => Unpacked(t)
    case Hide(p) => if p == [] then Unpacked(t) else HideOne(t, p)
    case Empty(d) => if ".." in d then Failed else ClearDir(t, d)
    case Upsert(p, e) => if p == [] then Unpacked(t) else UpsertOne(t, p, e)
  }

  type Stepper = (Tree, Action) -> Outcome

  /** Acting on each member in turn, until one does not unpack. */
  function Fold(step: Stepper, t: Tree, acts: seq<Action>): Outcome
    decreases |acts|
  {
    if acts == [] then Unpacked(t)
    else match step(t, acts[0])
      case Unpacked(u) => Fold(step, u, acts[1..])
      case other => other
  }

  function Unpack(t: Tree, acts: seq<Action>): Outcome {
    Fold(Step, t, acts)
  }

  /** `unpack_layer_from_reader` */
  method UnpackLayer(target: Tree, items: seq<Item>) returns (r: Outcome)
    ensures r == Unpack(target, Decode(items))
  {
    var acts := Decode(items);
    r := Unpacked(target);
    for i := 0 to |acts|
      invariant r.Unpacked? && Unpack(target, acts) == Unpack(r.tree, acts[i..])
    {
      assert acts[i..][0] == acts[i] && acts[i..][1..] == acts[i + 1..];
      r := Step(r.tree, acts[i]);
      if !r.Unpacked? {
        return;
      }
    }
    assert acts[|acts|..] == [];
  }

  /** Layers unpacked one over the other, until one does not unpack. */
  function UnpackAll(t: Tree, layers: seq<seq<Item>>): Outcome {
    if layers == [] then Unpacked(t)
    else match UnpackAll(t, layers[..|layers| - 1])
      case Unpacked(u) => Unpack(u, Decode(layers[|layers| - 1]))
      case other => other
  }

  lemma UnpackAllNext(t: Tree, layers: seq<seq<Item>>, layer: seq<Item>)
    ensures UnpackAll(t, layers + [layer]) == match UnpackAll(t, layers)
                                              case Unpacked(u) => Unpack(u, Decode(layer))
                                              case other => other
  {
    assert (layers + [layer])[..|layers|] == layers;
  }

  lemma {:induction false} UnpackAllStops(t: Tree, layers: seq<seq<Item>>, i: nat)
    requires i <= |layers| && !UnpackAll(t, layers[..i]).Unpacked?
    ensures UnpackAll(t, layers) == UnpackAll(t, layers[..i])
    decreases |layers|
  {
    if i == |layers| {
      assert layers[..i] == layers;
    } else {
      var init := layers[..|layers| - 1];
      assert init[..i] == layers[..i];
      UnpackAllStops(t, init, i);
    }
  }

  /** `merge_layers` */
  method MergeLayers(target: Tree, layers: seq<seq<Item>>) returns (r: Outcome)
    ensures r == UnpackAll(target, layers)
  {
    r := Unpacked(target);
    for i := 0 to |layers|
      invariant r.Unpacked? && UnpackAll(target, layers[..i]) == r
    {
      assert layers[..i + 1] == layers[..i] + [layers[i]];
      UnpackAllNext(target, layers[..i], layers[i]);
      r := UnpackLayer(r.tree, layers[i]);
      if !r.Unpacked? {
        UnpackAllStops(target, layers, i + 1);
        return;
      }
    }
    assert layers[..|layers|] == layers;
  }

  // ── Members under plain directories ─────────────────────────────────

  /** Everything above p is a directory, reached by its own name. */
  ghost predicate ClearAbove(t: Tree, p: Path) {
    ".." !in p && forall a | [] < a < p :: a in t && t[a].Dir?
  }

  lemma {:induction false} WalkClear(t: Tree, from: Path, names: Path, links: nat)
    requires ".." !in names && forall k | 0 < k < |names| :: from + names[..k] in t && t[from + names[..k]].Dir?
    requires names != [] ==> from + names in t && !t[from + names].Symlink?
    ensures Walk(t, from, names, links) == At(from + names)
    decreases |names|
  {
    if names == [] {
      assert from + names == from;
    } else {
      var next, rest := from + [names[0]], names[1..];
      assert from + names[..1] == next && next + rest == from + names;
      if rest == [] {
        assert names == [names[0]];
      } else {
        forall k | 0 < k < |rest| ensures next + rest[..k] in t && t[next + rest[..k]].Dir? {
          assert next + rest[..k] == from + names[..k + 1];
        }
        WalkClear(t, next, rest, links);
      }
    }
  }

  /** A path under plain directories leads to itself, unless it is a symlink. */
  lemma FollowClear(t: Tree, p: Path)
    requires ClearAbove(t, p) && (p != [] ==> p in t && !t[p].Symlink?)
    ensures Follow(t, p) == At(p)
  {
    forall k | 0 < k < |p| ensures [] + p[..k] in t && t[[] + p[..k]].Dir? {
      assert [] + p[..k] == p[..k] && [] < p[..k] < p;
    }
    assert [] + p == p;
    WalkClear(t, [], p, MAX_LINKS);
  }

  /** A directory under plain directories. */
  ghost predicate ClearDirAt(t: Tree, q: Path) {
    ClearAbove(t, q) && DirAt(t, q)
  }

  lemma ClearDown(t: Tree, from: Path, name: Name)
    requires ClearDirAt(t, from) && name != ".."
    ensures ClearAbove(t, from + [name])
  {
    var q := from + [name];
    forall a | [] < a < q ensures a in t && t[a].Dir? { assert a == from || a < from; }
  }

  lemma ClearUp(t: Tree, from: Path)
    requires ClearDirAt(t, from) && from != []
    ensures ClearDirAt(t, Parent(from))
  {
    ParentClear(t, from);
  }

  lemma {:induction false} WalkEnds(t: Tree, from: Path, names: Path, links: nat)
    requires ClearDirAt(t, from)
    ensures match Walk(t, from, names, links)
            case At(q) => ClearAbove(t, q) && (q != [] ==> q in t && !t[q].Symlink?)
            case _ => true
    decreases links, |names|
  {
    if names == [] {
    } else if names[0] == ".." {
      if from != [] {
        ClearUp(t, from);
        WalkEnds(t, Parent(from), names[1..], links);
      }
    } else {
      var next := from + [names[0]];
      ClearDown(t, from, names[0]);
      if next in t {
        match t[next]
        case Dir(_) => WalkEnds(t, next, names[1..], links);
        case Symlink(_, target) =>
          if links > 0 && target != "" && target[0] != '/' {
            WalkEnds(t, from, Tar.Components(target) + names[1..], links - 1);
          }
        case _ =>
      }
    }
  }

  /** Where a path leads is there, under plain directories and no symlink itself, so it leads to
      itself. */
  lemma FollowSettles(t: Tree, p: Path, q: Path)
    requires Follow(t, p) == At(q)
    ensures ClearAbove(t, q) && (q != [] ==> q in t && !t[q].Symlink?) && Follow(t, q) == At(q)
  {
    WalkEnds(t, [], p, MAX_LINKS);
    FollowClear(t, q);
  }

  lemma SlotClear(t: Tree, p: Path)
    requires p != [] && ClearAbove(t, p)
    ensures Follow(t, Parent(p)) == At(Parent(p)) && Slot(t, p) == At(p)
  {
    var d := Parent(p);
    assert d < p && d + [Last(p)] == p;
    assert d != [] ==> d in t && t[d].Dir?;
    FollowClear(t, d);
  }

  lemma MakeDirsClear(t: Tree, p: Path)
    requires ClearAbove(t, p) && DirAt(t, p)
    ensures MakeDirs(t, p) == Unpacked(t)
  {
    if p != [] {
      SlotClear(t, p);
      FollowClear(t, p);
    }
  }

  lemma HideStep(t: Tree, q: Path)
    requires q != [] && Last(q) != "" && Last(q) != "." && ClearAbove(t, q) && q in t
    ensures Step(t, Hide(q)) == Unpacked(RemoveAt(t, q))
  {
    assert Last(q) in q;
    SlotClear(t, q);
    SlotClear(RemoveBelow(t, q), q);
  }

  /** How an entry under plain directories ends: placed, if it is a directory exactly where there
      is one (or nothing); where a symlink leads, if a directory meets one; else failed. */
  ghost function Placing(t: Tree, k: Path, e: Entry): Outcome {
    if k !in t || (t[k].Dir? <==> e.Dir?) then Unpacked(t[k := View(e)])
    else if t[k].Symlink? && e.Dir? then AtLinkEnd(t, k, e.meta.mode)
    else Failed
  }

  /** Creating a directory at a symlink: a directory at its end gets the mode. */
  ghost function AtLinkEnd(t: Tree, k: Path, mode: nat): Outcome {
    match Follow(t, k)
    case Outside => Diverted
    case At(q) =>
      if q == [] then Unpacked(t)
      else if q in t && t[q].Dir? then Unpacked(t[q := Dir(Meta(mode, 0, 0))])
      else Failed
    case _ => Failed
  }

  /** The kinds of entries a guest captures. */
  predicate Plainly(e: Entry) {
    e.Dir? || e.File? || (e.Symlink? && e.target != "")
  }

  lemma UpsertStep(t: Tree, k: Path, e: Entry)
    requires k != [] && ClearAbove(t, k) && Plainly(e)
    ensures Step(t, Upsert(k, e)) == Placing(t, k, e)
  {
    SlotClear(t, k);
    if e.Dir? { UpsertDir(t, k, e); } else { UpsertOther(t, k, e); }
  }

  /** Where it is placed, what counts of it is there, and all else is as it was. */
  lemma UpsertKeeps(t: Tree, k: Path, e: Entry)
    requires k != [] && ClearAbove(t, k) && Plainly(e) && (k !in t || (t[k].Dir? <==> e.Dir?))
    ensures var r := Step(t, Upsert(k, e));
            && r.Unpacked? && k in r.tree && Kept(e, r.tree[k])
            && r.tree.Keys == t.Keys + {k} && forall p | p in t && p != k :: r.tree[p] == t[p]
  {
    UpsertStep(t, k, e);
    ViewKeeps(e);
  }

  lemma UpsertDir(t: Tree, k: Path, e: Entry)
    requires k != [] && ClearAbove(t, k) && e.Dir?
    ensures UpsertOne(t, k, e) == Placing(t, k, e)
  {
    SlotClear(t, k);
    if k !in t {
      FollowClear(t[k := Dir(Meta(0x1ED, 0, 0))], k);
    } else if !t[k].Symlink? {
      FollowClear(t, k);
    }
  }

  lemma UpsertOther(t: Tree, k: Path, e: Entry)
    requires k != [] && ClearAbove(t, k) && Plainly(e) && !e.Dir?
    ensures UpsertOne(t, k, e) == Placing(t, k, e)
  {
    ParentClear(t, k);
    MakeDirsClear(t, Parent(k));
    SlotClear(t, k);
    if k in t && !t[k].Dir? {
      SlotClear(t - {k}, k);
      assert (t - {k})[k := View(e)] == t[k := View(e)];
    }
  }

  lemma ParentClear(t: Tree, k: Path)
    requires k != [] && ClearAbove(t, k)
    ensures ClearAbove(t, Parent(k)) && DirAt(t, Parent(k))
  {
    var d := Parent(k);
    assert d < k;
    forall a | [] < a < d ensures a in t && t[a].Dir? { assert a < k; }
  }

  // ── Members under a symlink ─────────────────────────────────────────

  /** A relative symlink in the root leads on from there. */
  lemma FollowRootLink(t: Tree, n: Name)
    requires n != ".." && [n] in t && t[[n]].Symlink? && t[[n]].target != "" && t[[n]].target[0] != '/'
    ensures Follow(t, [n]) == Walk(t, [], Tar.Components(t[[n]].target), MAX_LINKS - 1)
  {
    assert [] + [n] == [n] && [n][1..] == [];
    assert Tar.Components(t[[n]].target) + [] == Tar.Components(t[[n]].target);
  }

  /** A path that leads somewhere has its last name in the directory that the rest leads to. */
  lemma {:induction false} WalkPrefix(t: Tree, from: Path, names: Path, links: nat)
    requires ClearDirAt(t, from) && names != [] && Last(names) != ".." && Walk(t, from, names, links).At?
    ensures var d := Walk(t, from, Parent(names), links);
            d.At? && DirAt(t, d.path) && d.path + [Last(names)] in t
    decreases links, |names|
  {
    if |names| == 1 {
      assert Parent(names) == [];
    } else {
      var next, rest := from + [names[0]], names[1..];
      assert Parent(names)[0] == names[0] && Parent(names)[1..] == Parent(rest) && Last(rest) == Last(names);
      if names[0] == ".." {
        ClearUp(t, from);
        WalkPrefix(t, Parent(from), rest, links);
      } else {
        ClearDown(t, from, names[0]);
        match t[next]
        case Dir(_) => WalkPrefix(t, next, rest, links);
        case Symlink(_, target) =>
          var more := Tar.Components(target) + rest;
          assert Parent(more) == Tar.Components(target) + Parent(rest) && Last(more) == Last(names);
          WalkPrefix(t, from, more, links - 1);
      }
    }
  }

  /** `create_dir_all` is content with a path that leads to a directory. */
  lemma MakeDirsThere(t: Tree, p: Path, q: Path)
    requires ".." !in p && Follow(t, p) == At(q) && DirAt(t, q)
    ensures MakeDirs(t, p) == Unpacked(t)
  {
    if p != [] {
      assert Last(p) in p;
      WalkPrefix(t, [], p, MAX_LINKS);
    }
  }

  /** What is placed in a directory that symlinks lead to goes there, and takes the place of
      anything but a directory, unless the way leads through what it takes the place of. */
  lemma PlacedWhereItLeads(t: Tree, p: Path, q: Path, e: Entry)
    requires p != [] && ".." !in p && Follow(t, Parent(p)) == At(q) && DirAt(t, q) && Plainly(e) && !e.Dir?
    ensures var x := q + [Last(p)];
            Step(t, Upsert(p, e)) ==
            if x in t && (t[x].Dir? || Follow(t - {x}, Parent(p)) != At(q)) then Failed
            else Unpacked(t[x := View(e)])
  {
    var x := q + [Last(p)];
    MakeDirsThere(t, Parent(p), q);
    if x in t && !t[x].Dir? {
      WalkWithout(t, x, [], Parent(p), MAX_LINKS);
      assert (t - {x})[x := View(e)] == t[x := View(e)];
    }
  }

  // ── What placing an entry never does ────────────────────────────────

  /** What was there is still there, and still a directory or not. */
  ghost predicate SortsKept(t: Tree, u: Tree) {
    forall p | p in t :: p in u && (u[p].Dir? <==> t[p].Dir?)
  }

  ghost predicate KeepsSorts(t: Tree, o: Outcome) {
    o.Unpacked? ==> SortsKept(t, o.tree)
  }

  lemma MakeDirKeeps(t: Tree, p: Path)
    requires p != []
    ensures KeepsSorts(t, MakeDir(t, p))
  {
  }

  lemma {:induction false} MakeDirsKeeps(t: Tree, p: Path)
    ensures KeepsSorts(t, MakeDirs(t, p))
    decreases |p|
  {
    if p != [] {
      MakeDirKeeps(t, p);
      MakeDirsKeeps(t, Parent(p));
      var o := MakeDirs(t, Parent(p));
      if o.Unpacked? { MakeDirKeeps(o.tree, p); }
    }
  }

  /** Without one entry a path leads to the same place, or through that entry nowhere. */
  lemma {:induction false} WalkWithout(t: Tree, x: Path, from: Path, names: Path, links: nat)
    ensures Walk(t - {x}, from, names, links) == Walk(t, from, names, links)
         || Walk(t - {x}, from, names, links) == Missing
         || Walk(t, from, names, links) == At(x)
    decreases links, |names|
  {
    if names != [] {
      var next := from + [names[0]];
      if names[0] == ".." {
        if from != [] { WalkWithout(t, x, Parent(from), names[1..], links); }
      } else if next in t && next != x {
        match t[next]
        case Dir(_) => WalkWithout(t, x, next, names[1..], links);
        case Symlink(_, target) =>
          if links > 0 && target != "" && target[0] != '/' {
            WalkWithout(t, x, from, Tar.Components(target) + names[1..], links - 1);
          }
        case _ =>
      }
    }
  }

  lemma SlotWithout(t: Tree, x: Path, p: Path)
    requires p != [] && x in t && !t[x].Dir? && Slot(t, p) == At(x)
    ensures Slot(t - {x}, p).At? ==> Slot(t - {x}, p) == At(x)
  {
    WalkWithout(t, x, [], Parent(p), MAX_LINKS);
  }

  /** Replacing a non-directory by another one. */
  lemma PlaceKeeps(t: Tree, p: Path, e: Entry)
    requires p != [] && !e.Dir?
    ensures KeepsSorts(t, PlaceEntry(t, p, e))
  {
    match Slot(t, p)
    case At(q) => if q in t && !t[q].Dir? { SlotWithout(t, q, p); }
    case _ =>
  }

  /** Whatever symlinks are on the way: placing an entry never turns a directory into something
      else, nor anything else into a directory. */
  lemma UpsertKeepsSorts(t: Tree, k: Path, e: Entry)
    ensures KeepsSorts(t, Step(t, Upsert(k, e)))
  {
    if k != [] {
      var d := if e.Dir? then k else Parent(k);
      MakeDirsKeeps(t, d);
      var o := MakeDirs(t, d);
      if o.Unpacked? && !e.Dir? { PlaceKeeps(o.tree, k, e); }
    }
  }

  // ── Trees that are not left ─────────────────────────────────────────

  predicate Local(target: string) {
    target == "" || (target[0] != '/' && ".." !in Tar.Components(target))
  }

  /** Every symlink leads downwards from where it is. */
  ghost predicate LocalLinks(t: Tree) {
    forall p | p in t && t[p].Symlink? :: Local(t[p].target)
  }

  predicate LocalEntry(e: Entry) {
    !e.HardLink? && (e.Symlink? ==> Local(e.target))
  }

  /** Such a tree is never left. */
  lemma {:induction false} WalkLocal(t: Tree, from: Path, names: Path, links: nat)
    requires LocalLinks(t) && ".." !in names
    ensures !Walk(t, from, names, links).Outside?
    decreases links, |names|
  {
    if names != [] {
      var next := from + [names[0]];
      if next in t {
        match t[next]
        case Dir(_) => WalkLocal(t, next, names[1..], links);
        case Symlink(_, target) =>
          if links > 0 && target != "" && target[0] != '/' {
            WalkLocal(t, from, Tar.Components(target) + names[1..], links - 1);
          }
        case _ =>
      }
    }
  }

  /** Not diverted, and symlinks still lead downwards. */
  ghost predicate Stays(o: Outcome) {
    !o.Diverted? && (o.Unpacked? ==> LocalLinks(o.tree))
  }

  lemma MakeDirStays(t: Tree, p: Path)
    requires LocalLinks(t) && p != [] && ".." !in p
    ensures Stays(MakeDir(t, p))
  {
    WalkLocal(t, [], p, MAX_LINKS);
    WalkLocal(t, [], Parent(p), MAX_LINKS);
  }

  lemma {:induction false} MakeDirsStays(t: Tree, p: Path)
    requires LocalLinks(t) && ".." !in p
    ensures Stays(MakeDirs(t, p))
    decreases |p|
  {
    if p != [] {
      MakeDirStays(t, p);
      MakeDirsStays(t, Parent(p));
      var o := MakeDirs(t, Parent(p));
      if o.Unpacked? { MakeDirStays(o.tree, p); }
    }
  }

  lemma UpsertStays(t: Tree, k: Path, e: Entry)
    requires LocalLinks(t) && LocalEntry(e)
    ensures Stays(Step(t, Upsert(k, e)))
  {
    if k != [] && ".." !in k {
      var d := if e.Dir? then k else Parent(k);
      MakeDirsStays(t, d);
      var o := MakeDirs(t, d);
      if o.Unpacked? {
        WalkLocal(o.tree, [], k, MAX_LINKS);
        if !e.Dir? { WalkLocal(Unlink(o.tree, k), [], Parent(k), MAX_LINKS); }
      }
    }
  }

  // ── All that the rest needs to know about a step ────────────────────

  ghost predicate Behaves(step: Stepper) {
    && (forall t: Tree, q: Path :: HidesAt(step, t, q))
    && (forall t: Tree, k: Path, e: Entry :: PutsAt(step, t, k, e))
  }

  ghost predicate HidesAt(step: Stepper, t: Tree, q: Path) {
    q != [] && Last(q) != "" && Last(q) != "." && ClearAbove(t, q) && q in t ==>
      step(t, Hide(q)) == Unpacked(RemoveAt(t, q))
  }

  ghost predicate PutsAt(step: Stepper, t: Tree, k: Path, e: Entry) {
    k != [] && Plainly(e) && ClearAbove(t, k) ==>
      if k !in t || (t[k].Dir? <==> e.Dir?) then step(t, Upsert(k, e)) == Unpacked(t[k := View(e)])
      else (t[k].Symlink? && e.Dir?) || step(t, Upsert(k, e)) == Failed
  }

  ghost predicate Steady(step: Stepper) {
    forall t: Tree, k: Path, e: Entry :: SteadyAt(step, t, k, e)
  }

  ghost predicate SteadyAt(step: Stepper, t: Tree, k: Path, e: Entry) {
    && KeepsSorts(t, step(t, Upsert(k, e)))
    && (LocalLinks(t) && LocalEntry(e) ==> Stays(step(t, Upsert(k, e))))
  }

  lemma StepBehaves()
    ensures Behaves(Step) && Steady(Step)
  {
    forall t: Tree, q: Path ensures HidesAt(Step, t, q) {
      if q != [] && Last(q) != "" && Last(q) != "." && ClearAbove(t, q) && q in t { HideStep(t, q); }
    }
    forall t: Tree, k: Path, e: Entry ensures PutsAt(Step, t, k, e) {
      if k != [] && Plainly(e) && ClearAbove(t, k) { UpsertStep(t, k, e); }
    }
    forall t: Tree, k: Path, e: Entry ensures SteadyAt(Step, t, k, e) {
      UpsertKeepsSorts(t, k, e);
      if LocalLinks(t) && LocalEntry(e) { UpsertStays(t, k, e); }
    }
  }

  // ── Several members ─────────────────────────────────────────────────

  lemma FoldNext(step: Stepper, t: Tree, acts: seq<Action>, i: nat)
    requires i < |acts|
    ensures Fold(step, t, acts[i..]) == match step(t, acts[i])
                                        case Unpacked(u) => Fold(step, u, acts[i + 1..])
                                        case other => other
  {
    assert acts[i..][0] == acts[i] && acts[i..][1..] == acts[i + 1..];
  }

  /** From the k-th member to the n-th every one unpacks, through these trees. */
  ghost predicate Stretch(step: Stepper, ts: seq<Tree>, acts: seq<Action>, k: nat, n: nat) {
    && k <= n <= |acts| && |ts| == n - k + 1
    && forall i | 0 <= i < n - k :: step(ts[i], acts[k + i]) == Unpacked(ts[i + 1])
  }

  lemma {:induction false} FoldThrough(step: Stepper, ts: seq<Tree>, acts: seq<Action>, k: nat, n: nat)
    requires Stretch(step, ts, acts, k, n)
    ensures Fold(step, ts[0], acts[k..]) == Fold(step, ts[n - k], acts[n..])
    decreases n - k
  {
    if k < n {
      assert step(ts[0], acts[k + 0]) == Unpacked(ts[0 + 1]);
      FoldNext(step, ts[0], acts, k);
      forall i | 0 <= i < n - (k + 1) ensures step(ts[1..][i], acts[k + 1 + i]) == Unpacked(ts[1..][i + 1]) {
        assert step(ts[i + 1], acts[k + (i + 1)]) == Unpacked(ts[i + 1 + 1]);
      }
      FoldThrough(step, ts[1..], acts, k + 1, n);
    }
  }

  lemma ExtendStretch(step: Stepper, ts: seq<Tree>, acts: seq<Action>, k: nat, n: nat, t: Tree)
    requires Stretch(step, ts, acts, k, n) && n < |acts| && step(ts[n - k], acts[n]) == Unpacked(t)
    ensures Stretch(step, ts + [t], acts, k, n + 1)
    ensures (ts + [t])[0] == ts[0] && (ts + [t])[n + 1 - k] == t
  {
    var us := ts + [t];
    forall i | 0 <= i < n + 1 - k ensures step(us[i], acts[k + i]) == Unpacked(us[i + 1]) {
      if i < n - k { assert step(ts[i], acts[k + i]) == Unpacked(ts[i + 1]); }
    }
  }

  lemma JoinStretches(step: Stepper, ts: seq<Tree>, us: seq<Tree>, acts: seq<Action>, k: nat, n: nat)
    requires Stretch(step, ts, acts, 0, k) && Stretch(step, us, acts, k, n) && ts[k] == us[0]
    ensures Stretch(step, ts + us[1..], acts, 0, n)
    ensures (ts + us[1..])[n] == us[n - k] && (ts + us[1..])[0] == ts[0]
  {
    var vs := ts + us[1..];
    assert forall i | k <= i <= n :: vs[i] == us[i - k];
    forall i | 0 <= i < n ensures step(vs[i], acts[0 + i]) == Unpacked(vs[i + 1]) {
      if i < k {
        assert step(ts[i], acts[0 + i]) == Unpacked(ts[i + 1]);
      } else {
        assert step(us[i - k], acts[k + (i - k)]) == Unpacked(us[i - k + 1]);
      }
    }
  }

  /** Members that all unpack end in the last tree. */
  lemma FoldAll(step: Stepper, ts: seq<Tree>, acts: seq<Action>, n: nat)
    requires Stretch(step, ts, acts, 0, n) && n == |acts|
    ensures Fold(step, ts[0], acts) == Unpacked(ts[n])
  {
    FoldThrough(step, ts, acts, 0, n);
    assert acts[0..] == acts && acts[n..] == [];
  }

  /** One that fails decides the outcome. */
  lemma FoldFails(step: Stepper, ts: seq<Tree>, acts: seq<Action>, n: nat)
    requires n < |acts| && Stretch(step, ts, acts, 0, n) && step(ts[n], acts[n]) == Failed
    ensures Fold(step, ts[0], acts) == Failed
  {
    FoldThrough(step, ts, acts, 0, n);
    assert acts[0..] == acts;
    FoldNext(step, ts[n], acts, n);
  }

  lemma SortsKeptOn(t: Tree, u: Tree, v: Tree)
    requires SortsKept(t, u) && SortsKept(u, v)
    ensures SortsKept(t, v)
  {
  }

  /** Entries alone keep all sorts. */
  lemma {:induction false} FoldKeepsSorts(step: Stepper, t: Tree, acts: seq<Action>, i: nat)
    requires Steady(step) && i <= |acts| && forall k | i <= k < |acts| :: acts[k].Upsert?
    ensures KeepsSorts(t, Fold(step, t, acts[i..]))
    decreases |acts| - i
  {
    if i < |acts| {
      FoldNext(step, t, acts, i);
      assert acts[i].Upsert? && acts[i] == Upsert(acts[i].path, acts[i].entry);
      assert SteadyAt(step, t, acts[i].path, acts[i].entry);
      var o := step(t, acts[i]);
      if o.Unpacked? {
        FoldKeepsSorts(step, o.tree, acts, i + 1);
        var r := Fold(step, o.tree, acts[i + 1..]);
        if r.Unpacked? { SortsKeptOn(t, o.tree, r.tree); }
      }
    }
  }

  /** And do not leave a tree whose symlinks, like their own, lead downwards. */
  lemma {:induction false} FoldStays(step: Stepper, t: Tree, acts: seq<Action>, i: nat)
    requires Steady(step) && LocalLinks(t) && i <= |acts|
    requires forall k | i <= k < |acts| :: acts[k].Upsert? && LocalEntry(acts[k].entry)
    ensures Stays(Fold(step, t, acts[i..]))
    decreases |acts| - i
  {
    if i < |acts| {
      FoldNext(step, t, acts, i);
      assert acts[i].Upsert? && acts[i] == Upsert(acts[i].path, acts[i].entry);
      assert SteadyAt(step, t, acts[i].path, acts[i].entry);
      var o := step(t, acts[i]);
      if o.Unpacked? { FoldStays(step, o.tree, acts, i + 1); }
    }
  }
}
