/** Image references: parsing, printing and the canonical form. */
module ImageRef {
  import opened Strings
  import opened Wrappers
  import Decimal

  const DEFAULT_REGISTRY := "docker.io"
  const DEFAULT_TAG := "latest"
  const LIBRARY_PREFIX := "library"

  datatype ImageReference = ImageReference(registry: string, repository: string, tag: string)

  datatype ParseError = EmptyReference

  // ── Splitting ───────────────────────────────────────────────────────

  predicate LooksLikeHostname(s: string) {
    '.' in s || s == "localhost"
  }

  predicate LooksLikeRegistry(component: string) {
    '.' in component || ':' in component || component == "localhost"
  }

  /** Digits after the only part of a reference are a port when that part looks like a host. */
  predicate IsPort(before: string, after: string) {
    Decimal.AllDigits(after) && '/' !in before && LooksLikeHostname(before)
  }

  /** `split_name_tag` */
  function SplitNameTag(s: string): (string, string) {
    if ':' !in s then (s, DEFAULT_TAG)
    else
      var colon := LastIndex(s, ':');
      var before, after := s[..colon], s[colon + 1..];
      if '/' in after || after == "" || IsPort(before, after) then (s, DEFAULT_TAG) else (before, after)
  }

  /** The registry and repository of a name with its tag taken off. */
  function SplitName(name: string): (string, string) {
    if '/' !in name then (DEFAULT_REGISTRY, LIBRARY_PREFIX + "/" + name)
    else
      var slash := FirstIndex(name, '/');
      var first, rest := name[..slash], name[slash + 1..];
      if '/' !in rest && !LooksLikeRegistry(first) then (DEFAULT_REGISTRY, name) else (first, rest)
  }

  /** `ImageReference::parse` */
  function Parse(s: string): Result<ImageReference, ParseError> {
    if s == "" then Err(EmptyReference)
    else
      var (name, tag) := SplitNameTag(s);
      var (registry, repository) := SplitName(name);
      Ok(ImageReference(registry, repository, tag))
  }

  /** `Display` */
  function Print(x: ImageReference): string {
    x.registry + "/" + x.repository + ":" + x.tag
  }

  // ── What printing keeps ─────────────────────────────────────────────

  predicate ValidTag(tag: string) {
    tag != "" && '/' !in tag && ':' !in tag
  }

  predicate ValidName(registry: string, repository: string) {
    '/' !in registry && ('/' in repository || LooksLikeRegistry(registry))
  }

  predicate Canonical(x: ImageReference) {
    ValidName(x.registry, x.repository) && ValidTag(x.tag)
  }

  lemma TagValid(s: string)
    ensures ValidTag(SplitNameTag(s).1)
  {
  }

  lemma ValidTagSplit(name: string, tag: string)
    requires ValidTag(tag)
    ensures SplitNameTag(name + ":" + tag) == if IsPort(name, tag) then (name + ":" + tag, DEFAULT_TAG) else (name, tag)
  {
    LastIndexIs(name, ':', tag);
    Pieces(name, ':', tag);
  }

  /** A tag behind a name with a slash is split off exactly when it is valid. */
  lemma TagSplit(name: string, tag: string)
    requires '/' in name
    ensures ValidTag(tag) ==> SplitNameTag(name + ":" + tag) == (name, tag)
    ensures !ValidTag(tag) ==> SplitNameTag(name + ":" + tag).1 != tag
  {
    if ValidTag(tag) {
      ValidTagSplit(name, tag);
    } else {
      TagValid(name + ":" + tag);
    }
  }

  lemma NameValid(name: string)
    ensures var (registry, repository) := SplitName(name); ValidName(registry, repository)
  {
    assert "library/"[7] == '/' && "docker.io"[6] == '.';
    if '/' !in name { assert (LIBRARY_PREFIX + "/" + name)[7] == '/'; }
  }

  lemma NameSplit(registry: string, repository: string)
    ensures SplitName(registry + "/" + repository) == (registry, repository) <==> ValidName(registry, repository)
  {
    var name := registry + "/" + repository;
    if ValidName(registry, repository) {
      FirstIndexIs(registry, '/', repository);
      Pieces(registry, '/', repository);
      assert name[|registry|] == '/';
    } else {
      NameValid(name);
    }
  }

  /** Printing and parsing give a reference back exactly when it is canonical. */
  lemma PrintThenParse(x: ImageReference)
    ensures Parse(Print(x)) == Ok(x) <==> Canonical(x)
  {
    var name := x.registry + "/" + x.repository;
    assert name[|x.registry|] == '/';
    TagSplit(name, x.tag);
    NameSplit(x.registry, x.repository);
  }

  /** One parse is enough: whatever non-empty string it reads, printing and parsing again changes nothing. */
  lemma ParseIsCanonical(s: string)
    ensures Parse(s).Err? <==> s == ""
    ensures s != "" ==> Canonical(Parse(s).value) && Parse(Print(Parse(s).value)) == Parse(s)
  {
    if s != "" {
      TagValid(s);
      NameValid(SplitNameTag(s).0);
      PrintThenParse(Parse(s).value);
    }
  }

  // ── What a parse reads ──────────────────────────────────────────────

  /** The ways to write a registry and a repository: both, or what is left when Docker Hub's defaults are. */
  predicate WritesName(name: string, registry: string, repository: string) {
    || name == registry + "/" + repository
    || (registry == DEFAULT_REGISTRY && name == repository)
    || (registry == DEFAULT_REGISTRY && LIBRARY_PREFIX + "/" + name == repository)
  }

  /** The ways to write a reference: a name with its tag, or without the default one. */
  predicate Writes(s: string, x: ImageReference) {
    || (x.tag == DEFAULT_TAG && WritesName(s, x.registry, x.repository))
    || exists k | 0 <= k < |s| ::
         s[k] == ':' && s[k + 1..] == x.tag && WritesName(s[..k], x.registry, x.repository)
  }

  lemma NameWritten(name: string)
    ensures var (registry, repository) := SplitName(name); WritesName(name, registry, repository)
  {
  }

  /** Nothing of the text is lost or invented: it writes the parsed reference, up to the defaults. */
  lemma ParseReads(s: string)
    requires s != ""
    ensures Writes(s, Parse(s).value)
  {
    NameWritten(SplitNameTag(s).0);
  }

  // ── The forms of a reference ────────────────────────────────────────

  /** A name alone is an official image of Docker Hub. Behind it, a tag is a tag unless it reads as the port
      of a host. */
  lemma OfficialForm(name: string, tag: string)
    requires '/' !in name && '/' !in tag && ':' !in tag && tag != ""
    ensures name != "" && ':' !in name ==> Parse(name) == Ok(ImageReference("docker.io", "library/" + name, "latest"))
    ensures Parse(name + ":" + tag) ==
            if Decimal.AllDigits(tag) && ('.' in name || name == "localhost")
            then Ok(ImageReference("docker.io", "library/" + (name + ":" + tag), "latest"))
            else Ok(ImageReference("docker.io", "library/" + name, tag))
  {
    ValidTagSplit(name, tag);
    assert "library" + "/" == "library/";
  }

  /** What is before the first slash is a registry when it has a dot or a colon, is localhost, or another
      slash follows; otherwise it belongs to the repository, on Docker Hub. */
  lemma QualifiedForm(first: string, rest: string, tag: string)
    requires '/' !in first && '/' !in tag && ':' !in tag && tag != ""
    ensures var isRegistry := '/' in rest || '.' in first || ':' in first || first == "localhost";
            var reference := (t: string) => if isRegistry then Ok(ImageReference(first, rest, t))
                                            else Ok(ImageReference("docker.io", first + "/" + rest, t));
            && Parse(first + "/" + rest + ":" + tag) == reference(tag)
            && (':' !in rest ==> Parse(first + "/" + rest) == reference("latest"))
  {
    var name := first + "/" + rest;
    assert name[|first|] == '/';
    TagSplit(name, tag);
    FirstIndexIs(first, '/', rest);
    Pieces(first, '/', rest);
    if ':' !in rest { NoTag(first, rest); }
  }

  /** A colon in the registry takes nothing off. */
  lemma NoTag(first: string, rest: string)
    requires ':' !in rest
    ensures SplitNameTag(first + "/" + rest) == (first + "/" + rest, "latest")
  {
    var s := first + "/" + rest;
    if ':' in s {
      var colon := LastIndex(s, ':');
      assert colon < |first|;
      assert s[colon + 1..][|first| - colon - 1] == '/';
    }
  }
}
