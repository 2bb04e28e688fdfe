/** References and the tags the local catalog stores them under (catalog.go,
    local_tag.go). */
module LocalTag {
  import opened Base
  import opened Text

  // version: the canonical text of a semantic version.
  datatype Reference = Reference(kind: string, name: string, version: Option<string>, digest: string,
                                 remote: string, built: bool)

  const KindSolution := "solution"
  const KindProvider := "provider"
  const KindAuthHandler := "auth-handler"

  predicate ValidKind(kind: string) {
    kind == KindSolution || kind == KindProvider || kind == KindAuthHandler
  }

  function Plural(kind: string): string {
    if kind == KindSolution then "solutions"
    else if kind == KindProvider then "providers"
    else if kind == KindAuthHandler then "auth-handlers"
    else kind + "s"
  }

  function KindFromPlural(s: string): Option<string> {
    if s == "solutions" then Some(KindSolution)
    else if s == "providers" then Some(KindProvider)
    else if s == "auth-handlers" then Some(KindAuthHandler)
    else None
  }

  // Mapping to the plural and back; only plurals of valid kinds map back.
  lemma KindPlural(kind: string, s: string)
    ensures ValidKind(kind) ==> KindFromPlural(Plural(kind)) == Some(kind)
    ensures KindFromPlural(s).Some? ==> ValidKind(KindFromPlural(s).value) && Plural(KindFromPlural(s).value) == s
  {
  }

  lemma PluralPlain(kind: string)
    requires ValidKind(kind)
    ensures kind != "" && Plural(kind) != ""
    ensures forall c | c in Plural(kind) :: 'a' <= c <= 'z' || c == '-'
    ensures forall c | c in kind :: 'a' <= c <= 'z' || c == '-'
  {
  }

  // A write with no remote origin is a built artifact.
  function WriteRef(ref: Reference): Reference {
    if ref.remote == "" then ref.(built := true) else ref
  }

  predicate CanGenerateTag(ref: Reference) {
    ref.kind != "" && ref.name != "" && (ref.version.Some? || ref.digest != "") && (ref.remote != "" || ref.built)
  }

  // The reference's tag alone says whether the artifact is stored.
  predicate HasFullIdentity(ref: Reference) {
    ref.digest == "" && ref.version.Some? && CanGenerateTag(ref)
  }

  function Repo(ref: Reference): string {
    if ref.remote != "" then ref.remote + "/" + Plural(ref.kind) + "/" + ref.name
    else ref.kind + "/" + ref.name
  }

  function BuildLocalTag(ref: Reference): string {
    if ref.version.Some? then Repo(ref) + ":" + ref.version.value
    else if ref.digest != "" then Repo(ref) + "@" + ref.digest
    else Repo(ref)
  }

  // IsValidName
  predicate ValidName(name: string) {
    && 0 < |name| <= 128 && 'a' <= name[0] <= 'z'
    && (var last := name[|name| - 1]; 'a' <= last <= 'z' || '0' <= last <= '9')
    && (forall c | c in name :: 'a' <= c <= 'z' || '0' <= c <= '9' || c == '-')
    && forall i | 0 <= i < |name| - 1 :: !(name[i] == '-' && name[i + 1] == '-')
  }

  // The characters of a semantic version's canonical text.
  predicate VersionText(v: string) {
    forall c | c in v :: '0' <= c <= '9' || 'a' <= c <= 'z' || 'A' <= c <= 'Z' || c in ".-+"
  }

  predicate StorableIdentity(ref: Reference) {
    ValidKind(ref.kind) && ValidName(ref.name) && ref.version.Some? && VersionText(ref.version.value)
  }

  // What precedes the name: a kind, or an origin and a plural.
  function Left(ref: Reference): string {
    if ref.remote != "" then ref.remote + "/" + Plural(ref.kind) else ref.kind
  }

  lemma LeftInjective(a: Reference, b: Reference)
    requires ValidKind(a.kind) && ValidKind(b.kind) && Left(a) == Left(b)
    ensures a.kind == b.kind && a.remote == b.remote
  {
    PluralPlain(a.kind);
    PluralPlain(b.kind);
    KindPlural(a.kind, "");
    KindPlural(b.kind, "");
    hide ValidKind, Plural, KindFromPlural;
    assert '/' in Left(a) <==> a.remote != "" by { if a.remote != "" { assert Left(a)[|a.remote|] == '/'; } }
    assert '/' in Left(b) <==> b.remote != "" by { if b.remote != "" { assert Left(b)[|b.remote|] == '/'; } }
    if a.remote != "" {
      SplitUnique(a.remote, Plural(a.kind), b.remote, Plural(b.kind), '/');
    }
  }

  lemma RepoInjective(a: Reference, b: Reference)
    requires ValidKind(a.kind) && ValidKind(b.kind) && '/' !in a.name && '/' !in b.name
    requires Repo(a) == Repo(b)
    ensures a.kind == b.kind && a.name == b.name && a.remote == b.remote
  {
    assert Repo(a) == Left(a) + ['/'] + a.name;
    assert Repo(b) == Left(b) + ['/'] + b.name;
    hide Repo, Left, ValidKind;
    SplitUnique(Left(a), a.name, Left(b), b.name, '/');
    LeftInjective(a, b);
  }

  // Artifacts that differ in kind, name, version or origin are never stored
  // under the same tag.
  lemma TagInjective(a: Reference, b: Reference)
    requires StorableIdentity(a) && StorableIdentity(b)
    requires BuildLocalTag(a) == BuildLocalTag(b)
    ensures a.kind == b.kind && a.name == b.name && a.version == b.version && a.remote == b.remote
  {
    assert BuildLocalTag(a) == Repo(a) + [':'] + a.version.value;
    assert BuildLocalTag(b) == Repo(b) + [':'] + b.version.value;
    SplitUnique(Repo(a), a.version.value, Repo(b), b.version.value, ':');
    RepoInjective(a, b);
  }

  // Writing makes the origin explicit without changing the tag; a reference to a
  // remote artifact stays as it is, and nothing but the origin changes.
  lemma WriteRefSameTag(ref: Reference)
    ensures BuildLocalTag(WriteRef(ref)) == BuildLocalTag(ref)
    ensures WriteRef(ref).remote != "" || WriteRef(ref).built
    ensures WriteRef(ref).(built := ref.built) == ref && (ref.remote != "" ==> WriteRef(ref) == ref)
    ensures ref.kind != "" && ref.name != "" && ref.version.Some? && ref.digest == "" ==> HasFullIdentity(WriteRef(ref))
  {
  }
}
