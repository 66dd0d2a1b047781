/** Relative paths as sequences of names, and the order in which a
    `BTreeMap<PathBuf, _>` lists them: component by component, each component
    character by character. Dafny's `p < q` on sequences is "proper prefix",
    that is, p is a proper ancestor of q. */
module Paths {

  type Name = string
  type Path = seq<Name>

  function Parent(p: Path): Path
    requires p != []
  {
    p[..|p| - 1]
  }

  function Last(p: Path): Name
    requires p != []
  {
    p[|p| - 1]
  }

  // ── Lexicographic order ─────────────────────────────────────────────

  ghost predicate StrictTotal<T(!new)>(lt: (T, T) -> bool) {
    && (forall x :: !lt(x, x))
    && (forall x, y, z :: lt(x, y) && lt(y, z) ==> lt(x, z))
    && (forall x, y :: lt(x, y) || lt(y, x) || x == y)
  }

  predicate LexLt<T(==)>(lt: (T, T) -> bool, a: seq<T>, b: seq<T>) {
    if b == [] then false
    else if a == [] then true
    else lt(a[0], b[0]) || (a[0] == b[0] && LexLt(lt, a[1..], b[1..]))
  }

  lemma {:induction false} LexIrreflexive<T(!new)>(lt: (T, T) -> bool, a: seq<T>)
    requires StrictTotal(lt)
    ensures !LexLt(lt, a, a)
  {
    if a != [] { LexIrreflexive(lt, a[1..]); }
  }

  lemma {:induction false} LexTransitive<T(!new)>(lt: (T, T) -> bool, a: seq<T>, b: seq<T>, c: seq<T>)
    requires StrictTotal(lt) && LexLt(lt, a, b) && LexLt(lt, b, c)
    ensures LexLt(lt, a, c)
  {
    if a != [] && a[0] == b[0] && b[0] == c[0] { LexTransitive(lt, a[1..], b[1..], c[1..]); }
  }

  lemma {:induction false} LexTotal<T(!new)>(lt: (T, T) -> bool, a: seq<T>, b: seq<T>)
    requires StrictTotal(lt)
    ensures LexLt(lt, a, b) || LexLt(lt, b, a) || a == b
  {
    if a != [] && b != [] && a[0] == b[0] {
      LexTotal(lt, a[1..], b[1..]);
      assert a[1..] == b[1..] ==> a == [a[0]] + a[1..] == [b[0]] + b[1..] == b;
    }
  }

  lemma LexStrictTotal<T(!new)>(lt: (T, T) -> bool)
    requires StrictTotal(lt)
    ensures StrictTotal((a, b) => LexLt(lt, a, b))
  {
    var lex := (a, b) => LexLt(lt, a, b);
    forall a ensures !lex(a, a) { LexIrreflexive(lt, a); }
    forall a, b, c | lex(a, b) && lex(b, c) ensures lex(a, c) { LexTransitive(lt, a, b, c); }
    forall a, b ensures lex(a, b) || lex(b, a) || a == b { LexTotal(lt, a, b); }
  }

  predicate NameLt(m: Name, n: Name) {
    LexLt((c: char, d: char) => c < d, m, n)
  }

  predicate PathLt(p: Path, q: Path) {
    LexLt(NameLt, p, q)
  }

  lemma PathOrder()
    ensures StrictTotal(PathLt)
  {
    var lt := (c: char, d: char) => c < d;
    LexStrictTotal(lt);
    var names := (m, n) => LexLt(lt, m, n);
    forall m, n ensures NameLt(m, n) == names(m, n) {}
    assert StrictTotal(NameLt);
    LexStrictTotal(NameLt);
    var paths := (p, q) => LexLt(NameLt, p, q);
    forall p, q ensures PathLt(p, q) == paths(p, q) {}
  }

  lemma PathIrreflexive(p: Path)
    ensures !PathLt(p, p)
  {
    PathOrder();
  }

  lemma PathTransitive(p: Path, q: Path, r: Path)
    requires PathLt(p, q) && PathLt(q, r)
    ensures PathLt(p, r)
  {
    PathOrder();
  }

  lemma PathTotal(p: Path, q: Path)
    ensures PathLt(p, q) || PathLt(q, p) || p == q
  {
    PathOrder();
  }

  /** A directory is listed before everything below it. */
  lemma {:induction false} AncestorFirst(p: Path, q: Path)
    requires p < q
    ensures PathLt(p, q)
  {
    if p != [] {
      assert p[1..] < q[1..];
      AncestorFirst(p[1..], q[1..]);
    }
  }

  // ── Sorted enumeration ──────────────────────────────────────────────

  ghost predicate Sorted(ps: seq<Path>) {
    forall i, j | 0 <= i < j < |ps| :: PathLt(ps[i], ps[j])
  }

  predicate IsLeast(p: Path, s: set<Path>) {
    p in s && forall q | q in s && q != p :: PathLt(p, q)
  }

  lemma {:induction false} LeastExists(s: set<Path>) returns (least: Path)
    requires s != {}
    ensures IsLeast(least, s)
  {
    var x :| x in s;
    if s == {x} {
      least := x;
    } else {
      var p := LeastExists(s - {x});
      PathTotal(p, x);
      least := if PathLt(p, x) then p else x;
      forall q | q in s && q != least ensures PathLt(least, q) {
        if q != x && least == x && q != p { PathTransitive(x, p, q); }
      }
    }
  }

  lemma LeastUnique(p: Path, q: Path, s: set<Path>)
    requires IsLeast(p, s) && IsLeast(q, s)
    ensures p == q
  {
    if p != q {
      PathTransitive(p, q, p);
      PathIrreflexive(p);
    }
  }

  lemma LeastDefined(s: set<Path>)
    requires s != {}
    ensures exists p :: IsLeast(p, s)
    ensures forall p, q | IsLeast(p, s) && IsLeast(q, s) :: p == q
  {
    var p := LeastExists(s);
    forall p, q | IsLeast(p, s) && IsLeast(q, s) ensures p == q { LeastUnique(p, q, s); }
  }

  lemma SortedCons(p: Path, rest: seq<Path>, s: set<Path>)
    requires IsLeast(p, s) && Sorted(rest)
    requires forall q :: q in rest <==> q in s - {p}
    ensures Sorted([p] + rest)
    ensures forall q :: q in [p] + rest <==> q in s
  {
    var ps := [p] + rest;
    forall i, j | 0 <= i < j < |ps| ensures PathLt(ps[i], ps[j]) {
      assert ps[j] == rest[j - 1] && rest[j - 1] in rest;
    }
  }

  /** The keys of a `BTreeMap` in iteration order. */
  function SortedPaths(s: set<Path>): (ps: seq<Path>)
    ensures Sorted(ps)
    ensures forall p :: p in ps <==> p in s
    decreases |s|
  {
    if s == {} then []
    else
      LeastDefined(s);
      var p :| IsLeast(p, s);
      var rest := SortedPaths(s - {p});
      SortedCons(p, rest, s);
      [p] + rest
  }

  lemma SortedDistinct(ps: seq<Path>)
    requires Sorted(ps)
    ensures forall i, j | 0 <= i < j < |ps| :: ps[i] != ps[j] && !(ps[j] < ps[i])
  {
    forall i, j | 0 <= i < j < |ps| ensures ps[i] != ps[j] && !(ps[j] < ps[i]) {
      PathIrreflexive(ps[i]);
      if ps[j] < ps[i] {
        AncestorFirst(ps[j], ps[i]);
        PathTransitive(ps[i], ps[j], ps[i]);
      }
    }
  }

  lemma {:induction false} SortedUnique(ps: seq<Path>, qs: seq<Path>)
    requires Sorted(ps) && Sorted(qs)
    requires forall p :: p in ps <==> p in qs
    ensures ps == qs
  {
    assert ps != [] ==> ps[0] in qs;
    assert qs != [] ==> qs[0] in ps;
    if ps != [] && qs != [] {
      var i :| 0 <= i < |qs| && qs[i] == ps[0];
      var j :| 0 <= j < |ps| && ps[j] == qs[0];
      if 0 < i && 0 < j {
        PathTransitive(ps[0], qs[0], ps[0]);
        PathIrreflexive(ps[0]);
      }
      assert ps[0] == qs[0];
      SortedDistinct(ps);
      SortedDistinct(qs);
      forall p ensures p in ps[1..] <==> p in qs[1..] {
        assert p in ps[1..] <==> p in ps && p != ps[0];
        assert p in qs[1..] <==> p in qs && p != qs[0];
      }
      SortedUnique(ps[1..], qs[1..]);
    }
  }
}
