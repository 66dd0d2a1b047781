/** The host's rewriting of an overlayfs upper directory, archived as a tar,
    into an OCI layer. */
module Layer {
  import opened Numbers
  import opened Wrappers
  import opened Paths
  import opened Changeset

  // ── Tar members of an overlayfs upper directory ─────────────────────

  datatype Body =
    | Regular(meta: Meta, digest: string)
    | Directory(meta: Meta)
    | SymLink(meta: Meta, target: string)
    | Link(linkName: Option<string>)
    | Char(meta: Meta, major: Option<nat>, minor: Option<nat>)

  datatype Pax = Pax(key: string, value: string)

  datatype Member = Member(raw: string, body: Body, pax: seq<Pax>)

  const OVERLAY_OPAQUE_XATTR := "SCHILY.xattr.trusted.overlay.opaque"

  // ── Path strings ────────────────────────────────────────────────────

  /** `normalize_path` */
  function NormalizePath(s: string): string {
    if "./" <= s || s == "." then s
    else if "/" <= s then "./" + s[1..]
    else "./" + s
  }

  /** The names a path string goes through; empty and `.` components name nothing. */
  function Components(s: string): Path {
    Split(s, "")
  }

  function Split(s: string, name: Name): Path {
    if s == "" then Named(name)
    else if s[0] == '/' then Named(name) + Split(s[1..], "")
    else Split(s[1..], name + [s[0]])
  }

  function Named(name: Name): Path {
    if name == "" || name == "." then [] else [name]
  }

  /** Normalising settles after one step, in a text relative to `.`, and never changes which path is
      meant. */
  lemma NormalizePreservesPath(s: string)
    ensures "./" <= NormalizePath(s) || NormalizePath(s) == "."
    ensures NormalizePath(NormalizePath(s)) == NormalizePath(s)
    ensures Components(NormalizePath(s)) == Components(s)
  {
    var r := if "/" <= s then s[1..] else s;
    DotSlash(r);
    assert "/" <= s ==> Split(s, "") == [] + Split(r, "");
  }

  lemma DotSlash(r: string)
    ensures Split("./" + r, "") == Split(r, "")
  {
    var t := "./" + r;
    assert t[1..] == "/" + r && t[1..][1..] == r;
    assert Split(t, "") == Split(t[1..], ".") == [] + Split(r, "");
  }

  // ── transform_tar ───────────────────────────────────────────────────

  predicate IsExcluded(path: string, excluded: seq<string>) {
    exists i | 0 <= i < |excluded| :: excluded[i] <= path
  }

  predicate HasOpaqueXattr(m: Member) {
    exists i | 0 <= i < |m.pax| :: m.pax[i].key == OVERLAY_OPAQUE_XATTR
  }

  function GetOr(o: Option<nat>, default: nat): nat {
    if o.Some? then o.value else default
  }

  predicate IsOverlayWhiteout(m: Member) {
    m.body.Char? && GetOr(m.body.major, U32_MAX) == 0 && GetOr(m.body.minor, U32_MAX) == 0
  }

  /** `write_oci_whiteout`; a path that ends in no name gets the bare prefix. */
  function OciWhiteout(p: Path): Item {
    if p == [] then Item([WHITEOUT_PREFIX], EmptyFile())
    else if Last(p) == ".." then Item(Parent(p) + [WHITEOUT_PREFIX], EmptyFile())
    else WhiteoutItem(p)
  }

  function EntryOfBody(body: Body): Entry {
    match body
    case Regular(meta, digest) => File(meta, digest)
    case Directory(meta) => Dir(meta)
    case SymLink(meta, target) => Symlink(meta, target)
    case Link(None) => HardLink([])
    case Link(Some(t)) => HardLink(Components(NormalizePath(t)))
    case Char(meta, major, minor) => Device(meta, GetOr(major, U32_MAX), GetOr(minor, U32_MAX))
  }

  /** What one member becomes. */
  function TransformOne(m: Member, excluded: seq<string>): seq<Item> {
    var normalized := NormalizePath(m.raw);
    var p := Components(normalized);
    if IsExcluded(normalized, excluded) then []
    else if IsOverlayWhiteout(m) then [OciWhiteout(p)]
    else if HasOpaqueXattr(m) && m.body.Directory? then
      [Item(p, EntryOfBody(m.body)), Item(p + [WHITEOUT_PREFIX + OPAQUE_SUFFIX], EmptyFile())]
    else [Item(p, EntryOfBody(m.body))]
  }

  function Transform(tar: seq<Member>, excluded: seq<string>): seq<Item> {
    if tar == [] then []
    else Transform(tar[..|tar| - 1], excluded) + TransformOne(tar[|tar| - 1], excluded)
  }

  method TransformTar(tar: seq<Member>, excluded: seq<string>) returns (output: seq<Item>, entryCount: nat)
    ensures output == Transform(tar, excluded)
    ensures entryCount == |output|
  {
    output, entryCount := [], 0;
    for i := 0 to |tar|
      invariant output == Transform(tar[..i], excluded) && entryCount == |output|
    {
      assert tar[..i + 1][..i] == tar[..i];
      var items := TransformEntry(tar[i], excluded);
      output := output + items;
      entryCount := entryCount + |items|;
    }
    assert tar[..|tar|] == tar;
  }

  /** The body of its loop, with its early exits. */
  method TransformEntry(m: Member, excluded: seq<string>) returns (items: seq<Item>)
    ensures items == TransformOne(m, excluded)
  {
    var normalized := NormalizePath(m.raw);
    var p := Components(normalized);
    if IsExcluded(normalized, excluded) {
      return [];
    }
    if IsOverlayWhiteout(m) {
      return [OciWhiteout(p)];
    }
    if m.body.Link? && m.body.linkName.Some? {
      return [Item(p, HardLink(Components(NormalizePath(m.body.linkName.value))))];
    }
    items := [Item(p, EntryOfBody(m.body))];
    if HasOpaqueXattr(m) && m.body.Directory? {
      items := items + [Item(p + [WHITEOUT_PREFIX + OPAQUE_SUFFIX], EmptyFile())];
    }
  }

  // ── Exclusions ──────────────────────────────────────────────────────

  /** The member's text, relative to `.`, begins with a listed one. */
  ghost predicate Listed(m: Member, excluded: seq<string>) {
    exists e | e in excluded :: |e| <= |NormalizePath(m.raw)| && NormalizePath(m.raw)[..|e|] == e
  }

  ghost function Remaining(tar: seq<Member>, excluded: seq<string>): seq<Member> {
    if tar == [] then []
    else
      var n := |tar| - 1;
      Remaining(tar[..n], excluded) + if Listed(tar[n], excluded) then [] else [tar[n]]
  }

  lemma ExcludedIsListed(m: Member, excluded: seq<string>)
    ensures IsExcluded(NormalizePath(m.raw), excluded) <==> Listed(m, excluded)
  {
    var text := NormalizePath(m.raw);
    if i :| 0 <= i < |excluded| && excluded[i] <= text { assert text[..|excluded[i]|] == excluded[i]; }
    if e :| e in excluded && |e| <= |text| && text[..|e|] == e {
      var i :| 0 <= i < |excluded| && excluded[i] == e;
      assert excluded[i] <= text;
    }
  }

  lemma TransformNext(tar: seq<Member>, m: Member, excluded: seq<string>)
    ensures Transform(tar + [m], excluded) == Transform(tar, excluded) + TransformOne(m, excluded)
  {
    assert (tar + [m])[..|tar|] == tar;
  }

  /** Excluding members is transforming the archive without them. */
  lemma {:induction false} ExclusionDrops(tar: seq<Member>, excluded: seq<string>)
    ensures Transform(tar, excluded) == Transform(Remaining(tar, excluded), [])
  {
    if tar != [] {
      var n := |tar| - 1;
      ExclusionDrops(tar[..n], excluded);
      ExcludedIsListed(tar[n], excluded);
      if Listed(tar[n], excluded) {
        assert Remaining(tar, excluded) == Remaining(tar[..n], excluded);
      } else {
        assert TransformOne(tar[n], excluded) == TransformOne(tar[n], []);
        TransformNext(Remaining(tar[..n], excluded), tar[n], []);
      }
    }
  }
}
