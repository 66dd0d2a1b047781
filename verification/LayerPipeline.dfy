/** A guest's diff archive passes through the host's transformation unharmed. */
module LayerPipeline {
  import opened Wrappers
  import opened Paths
  import opened Changeset
  import opened Overlay
  import opened DiffApply
  import opened Layer

  function Join(p: Path): string {
    if p == [] then "" else if |p| == 1 then p[0] else p[0] + "/" + Join(p[1..])
  }

  predicate ValidName(n: Name) {
    n != "" && n != "." && n != ".." && '/' !in n
  }

  /** How the guest's archive writer stores an item. */
  function ToMember(it: Item): Member {
    Member(Join(it.path),
           match it.entry
           case Dir(meta) => Directory(meta)
           case File(meta, digest) => Regular(meta, digest)
           case Symlink(meta, target) => SymLink(meta, target)
           case HardLink(_) => Link(None)
           case Device(meta, major, minor) => Char(meta, Some(major), Some(minor)),
           [])
  }

  function ToMembers(items: seq<Item>): seq<Member> {
    seq(|items|, i requires 0 <= i < |items| => ToMember(items[i]))
  }

  lemma {:induction false} SplitName(n: Name, rest: string, before: Name)
    requires '/' !in n
    ensures Split(n + rest, before) == Split(rest, before + n)
  {
    if n == "" {
      assert n + rest == rest && before + n == before;
    } else {
      assert (n + rest)[1..] == n[1..] + rest;
      SplitName(n[1..], rest, before + [n[0]]);
      assert before + [n[0]] + n[1..] == before + n;
    }
  }

  lemma {:induction false} ComponentsJoin(p: Path)
    requires forall n | n in p :: ValidName(n)
    ensures Components(Join(p)) == p
  {
    if p != [] {
      var n := p[0];
      assert n in p && "" + n == n;
      if |p| == 1 {
        assert n + "" == n;
        SplitName(n, "", "");
      } else {
        var rest := "/" + Join(p[1..]);
        assert Join(p) == n + rest;
        SplitName(n, rest, "");
        assert rest[1..] == Join(p[1..]);
        ComponentsJoin(p[1..]);
        assert p == [n] + p[1..];
      }
    }
  }

  predicate Storable(it: Item) {
    (it.entry.Dir? || it.entry.File? || it.entry.Symlink?) && forall n | n in it.path :: ValidName(n)
  }

  lemma StoredUnchanged(it: Item)
    requires Storable(it)
    ensures TransformOne(ToMember(it), []) == [it]
  {
    var m := ToMember(it);
    NormalizePreservesPath(m.raw);
    ComponentsJoin(it.path);
    assert !IsExcluded(NormalizePath(m.raw), []);
  }

  function Parts(ms: seq<Member>): seq<seq<Item>> {
    seq(|ms|, i requires 0 <= i < |ms| => TransformOne(ms[i], []))
  }

  function Concat(parts: seq<seq<Item>>): seq<Item> {
    if parts == [] then [] else Concat(parts[..|parts| - 1]) + parts[|parts| - 1]
  }

  lemma {:induction false} TransformConcat(ms: seq<Member>)
    ensures Transform(ms, []) == Concat(Parts(ms))
  {
    if ms != [] {
      var n := |ms| - 1;
      TransformConcat(ms[..n]);
      assert Parts(ms)[..n] == Parts(ms[..n]);
    }
  }

  lemma {:induction false} ConcatSingles(parts: seq<seq<Item>>, items: seq<Item>)
    requires |parts| == |items| && forall i | 0 <= i < |parts| :: parts[i] == [items[i]]
    ensures Concat(parts) == items
  {
    if parts != [] { ConcatSingles(parts[..|parts| - 1], items[..|items| - 1]); }
  }

  /** A captured tree: valid names, and only directories, files and symlinks. */
  ghost predicate Capturable(t: Tree) {
    forall p | p in t :: p != [] && Storable(Item(p, t[p]))
  }

  lemma WhiteoutStorable(q: Path)
    requires q != [] && forall n | n in q :: ValidName(n)
    ensures Storable(WhiteoutItem(q))
  {
    var p := WhiteoutItem(q).path;
    assert Last(q) in q;
    forall n | n in p ensures ValidName(n) {
      if n in Parent(q) { assert n in q; }
    }
  }

  lemma ArchiveStorable(b: Tree, c: Tree, i: nat)
    requires Capturable(b) && Capturable(c) && i < |Archive(b, c)|
    ensures Storable(Archive(b, c)[i])
  {
    if i < |Roots(b, c)| { RootStorable(b, c, i); } else { AddStorable(b, c, i - |Roots(b, c)|); }
  }

  lemma RootStorable(b: Tree, c: Tree, i: nat)
    requires Capturable(b) && i < |Roots(b, c)|
    ensures i < |Archive(b, c)| && Storable(Archive(b, c)[i])
  {
    var q := Roots(b, c)[i];
    assert q in Roots(b, c);
    assert q in b && Storable(Item(q, b[q]));
    WhiteoutStorable(q);
    assert Archive(b, c)[i] == WhiteoutItem(q);
  }

  lemma AddStorable(b: Tree, c: Tree, j: nat)
    requires Capturable(b) && Capturable(c) && j < |Adds(b, c)|
    ensures |Roots(b, c)| + j < |Archive(b, c)| && Storable(Archive(b, c)[|Roots(b, c)| + j])
  {
    var p := Adds(b, c)[j];
    assert p in Adds(b, c);
    assert p in c && Storable(Item(p, c[p]));
    assert Archive(b, c)[|Roots(b, c)| + j] == Item(p, c[p]);
  }

  /** From guest to applied layer: diff, archive, transform, decode and apply restore the tree,
      if and only if no name can be misread. */
  lemma GuestLayerRestores(b: Tree, c: Tree)
    requires WellFormed(b) && WellFormed(c) && Capturable(b) && Capturable(c)
    ensures Apply(b, Decode(Transform(ToMembers(Archive(b, c)), []))) == c <==> Unambiguous(b, c)
  {
    var items := Archive(b, c);
    var ms := ToMembers(items);
    forall i | 0 <= i < |items| ensures Parts(ms)[i] == [items[i]] {
      ArchiveStorable(b, c, i);
      StoredUnchanged(items[i]);
    }
    TransformConcat(ms);
    ConcatSingles(Parts(ms), items);
    DiffThenApply(b, c);
  }
}
