/** Remote references, printed and parsed (reference.go). */
module RemoteReference {
  import opened Base
  import opened Text
  import opened LocalTag

  // kind "" stands for a path without a kind.
  datatype RemoteRef = RemoteRef(registry: string, repository: string, kind: string, name: string, tag: string)

  datatype ParseError = EmptyReference | NoRepository

  // A separator and a part, unless the part is empty.
  function Opt(c: char, s: string): string {
    if s == "" then "" else [c] + s
  }

  function KindText(kind: string): string {
    if kind == "" then "" else Plural(kind)
  }

  function Path(r: RemoteRef): string {
    r.registry + Opt('/', r.repository) + Opt('/', KindText(r.kind)) + ['/'] + r.name
  }

  function ToString(r: RemoteRef): string {
    Path(r) + Opt('@', r.tag)
  }

  predicate IsSpace(c: char) {
    c in "\t\n\U{000B}\U{000C}\r \U{0085}\U{00A0}\U{1680}\U{2028}\U{2029}\U{202F}\U{205F}\U{3000}"
    || '\U{2000}' <= c <= '\U{200A}'
  }

  function TrimLeft(s: string): string {
    if s != [] && IsSpace(s[0]) then TrimLeft(s[1..]) else s
  }

  function TrimRight(s: string): string {
    if s != [] && IsSpace(s[|s| - 1]) then TrimRight(s[..|s| - 1]) else s
  }

  function TrimSpace(s: string): string {
    TrimRight(TrimLeft(s))
  }

  const Scheme := "oci://"

  function TrimScheme(s: string): string {
    if Scheme <= s then s[|Scheme|..] else s
  }

  // The text before the tag, and the tag. A colon before the first slash is a
  // port.
  function SplitTag(s: string): (string, string) {
    var at, colon, slash := LastIndex(s, '@'), LastIndex(s, ':'), Index(s, '/');
    if at != -1 then (s[..at], s[at + 1..])
    else if colon != -1 && slash != -1 && colon > slash then (s[..colon], s[colon + 1..])
    else (s, "")
  }

  // The first segment from i on, the last one excluded, that is a kind plural.
  function KindAt(parts: seq<string>, i: nat): (k: nat)
    requires i <= |parts|
    ensures i <= k <= |parts|
    ensures k < |parts| ==> k < |parts| - 1 && KindFromPlural(parts[k]).Some?
    ensures forall j | i <= j < k && j < |parts| - 1 :: KindFromPlural(parts[j]).None?
    decreases |parts| - i
  {
    if i >= |parts| - 1 then |parts|
    else if KindFromPlural(parts[i]).Some? then i
    else KindAt(parts, i + 1)
  }

  function FromParts(parts: seq<string>, tag: string): RemoteRef
    requires |parts| >= 2
  {
    var i := KindAt(parts, 1);
    if i < |parts|
    then RemoteRef(parts[0], Join(parts[1..i], '/'), KindFromPlural(parts[i]).value, parts[i + 1], tag)
    else RemoteRef(parts[0], Join(parts[1..|parts| - 1], '/'), "", parts[|parts| - 1], tag)
  }

  function Parsed(input: string): Result<RemoteRef, ParseError> {
    var s := TrimSpace(input);
    if s == "" then Err(EmptyReference)
    else
      var (path, tag) := SplitTag(TrimScheme(s));
      var parts := Split(path, '/');
      if |parts| < 2 then Err(NoRepository) else Ok(FromParts(parts, tag))
  }

  method ParseRemoteReference(input: string) returns (r: Result<RemoteRef, ParseError>)
    ensures r == Parsed(input)
  {
    var s := TrimSpace(input);
    if s == "" {
      return Err(EmptyReference);
    }
    s := TrimScheme(s);
    var tag := "";
    var at, colon := LastIndex(s, '@'), LastIndex(s, ':');
    if at != -1 {
      s, tag := s[..at], s[at + 1..];
    } else if colon != -1 {
      var slash := Index(s, '/');
      if slash != -1 && colon > slash {
        s, tag := s[..colon], s[colon + 1..];
      }
    }
    assert (s, tag) == SplitTag(TrimScheme(TrimSpace(input)));
    var parts := Split(s, '/');
    if |parts| < 2 {
      return Err(NoRepository);
    }
    var i := 1;
    while i < |parts| - 1
      invariant 1 <= i <= |parts| - 1
      invariant KindAt(parts, i) == KindAt(parts, 1)
    {
      var kind := KindFromPlural(parts[i]);
      if kind.Some? {
        return Ok(RemoteRef(parts[0], Join(parts[1..i], '/'), kind.value, parts[i + 1], tag));
      }
      i := i + 1;
    }
    r := Ok(RemoteRef(parts[0], Join(parts[1..|parts| - 1], '/'), "", parts[|parts| - 1], tag));
  }

  // ---------------------------------------------------------------------
  // Parsing what was printed

  // What the printed form cannot tell apart is absent: separators inside parts
  // and surrounding white space.
  predicate Printable(r: RemoteRef) {
    && '/' !in r.registry && '@' !in r.registry && r.registry != "oci:"
    && (r.registry != "" ==> !IsSpace(r.registry[0]))
    && '@' !in r.repository && ':' !in r.repository
    && (r.kind == "" || ValidKind(r.kind))
    && '/' !in r.name && '@' !in r.name && ':' !in r.name
    && '@' !in r.tag
    && (r.tag != "" ==> !IsSpace(r.tag[|r.tag| - 1]))
    && (r.tag == "" && r.name != "" ==> !IsSpace(r.name[|r.name| - 1]))
  }

  function OptParts(s: string): seq<string> {
    if s == "" then [] else Split(s, '/')
  }

  predicate NoKindSegment(r: RemoteRef) {
    forall s | s in OptParts(r.repository) :: KindFromPlural(s).None?
  }

  function Parts(r: RemoteRef): seq<string> {
    [r.registry] + OptParts(r.repository) + OptParts(KindText(r.kind)) + [r.name]
  }

  lemma JoinOnto(a: seq<string>, s: string)
    requires a != [] && Plain(a, '/')
    ensures Join(a + OptParts(s), '/') == Join(a, '/') + Opt('/', s) && Plain(a + OptParts(s), '/')
  {
    if s == "" {
      assert a + OptParts(s) == a;
    } else {
      JoinSplit(s, '/');
      JoinAppend(a, Split(s, '/'), '/');
    }
  }

  lemma PathParts(r: RemoteRef)
    requires Printable(r)
    ensures Split(Path(r), '/') == Parts(r)
  {
    assert Plain([r.registry], '/') && Plain([r.name], '/');
    var withRepo := [r.registry] + OptParts(r.repository);
    var withKind := withRepo + OptParts(KindText(r.kind));
    hide *;
    JoinOnto([r.registry], r.repository);
    JoinOnto(withRepo, KindText(r.kind));
    JoinAppend(withKind, [r.name], '/');
    PathPartsAux(r, withRepo, withKind);
    SplitJoin(Parts(r), '/');
  }

  lemma PathPartsAux(r: RemoteRef, withRepo: seq<string>, withKind: seq<string>)
    requires withRepo == [r.registry] + OptParts(r.repository) && withKind == withRepo + OptParts(KindText(r.kind))
    requires Join(withRepo, '/') == Join([r.registry], '/') + Opt('/', r.repository)
    requires Join(withKind, '/') == Join(withRepo, '/') + Opt('/', KindText(r.kind))
    requires Join(withKind + [r.name], '/') == Join(withKind, '/') + ['/'] + Join([r.name], '/')
    requires Plain(withKind, '/') && '/' !in r.name
    ensures Join(Parts(r), '/') == Path(r) && Plain(Parts(r), '/') && Parts(r) != []
  {
    hide Opt, OptParts, KindText;
    assert Parts(r) == withKind + [r.name];
  }

  // The text after the registry: it starts with the slash, and has no colon.
  function Rest(r: RemoteRef): string {
    Opt('/', r.repository) + Opt('/', KindText(r.kind)) + ['/'] + r.name
  }

  lemma RestPlain(r: RemoteRef)
    requires Printable(r)
    ensures Path(r) == r.registry + Rest(r) && Rest(r) != "" && Rest(r)[0] == '/'
    ensures '@' !in Rest(r) && ':' !in Rest(r)
    ensures Rest(r)[|Rest(r)| - 1] == if r.name == "" then '/' else r.name[|r.name| - 1]
  {
    if r.kind != "" { PluralPlain(r.kind); }
    hide Plural, KindFromPlural;
    var kind := Opt('/', KindText(r.kind));
    assert '@' !in kind && ':' !in kind && (kind != "" ==> kind[0] == '/');
    hide KindText;
  }

  // A path and its tag, after either separator.
  function Written(r: RemoteRef, c: char): string {
    Path(r) + Opt(c, r.tag)
  }

  // A tag a separator can be told from.
  predicate TagPlain(r: RemoteRef, c: char) {
    c == '@' || (c == ':' && ':' !in r.tag)
  }

  lemma SplitTagPrinted(r: RemoteRef, c: char)
    requires Printable(r) && TagPlain(r, c)
    ensures SplitTag(Written(r, c)) == (Path(r), r.tag)
  {
    RestPlain(r);
    ColonInRegistry(r);
    var path := Path(r);
    assert '@' !in path && '@' !in r.tag;
    assert '/' in path by { assert path[|r.registry|] == '/'; }
    hide Path, Rest, Printable;
    if c == '@' { SplitTagAt(path, r.tag); } else { SplitTagColon(path, r.tag); }
  }

  lemma SplitTagColon(path: string, tag: string)
    requires '@' !in path && '@' !in tag && ':' !in tag && '/' in path && LastIndex(path, ':') < Index(path, '/')
    ensures SplitTag(path + Opt(':', tag)) == (path, tag)
  {
    var s := path + Opt(':', tag);
    if tag != "" {
      assert s == path + [':'] + tag;
      LastIndexSplit(path, tag, ':');
      FirstSlash(path, [':'] + tag);
      assert path + ([':'] + tag) == s;
      hide LastIndex, Index;
      assert s[..|path|] == path && s[|path| + 1..] == tag && '@' !in s;
    } else {
      assert s == path;
    }
  }

  lemma FirstSlash(path: string, more: string)
    requires '/' in path
    ensures 0 <= Index(path, '/') < |path| && Index(path + more, '/') == Index(path, '/')
  {
    var s, k := path + more, Index(path, '/');
    assert s[..k] == path[..k] && s[k] == '/';
    IndexIs(s, '/', k);
  }

  lemma SplitTagAt(path: string, tag: string)
    requires '@' !in path && '@' !in tag && LastIndex(path, ':') < Index(path, '/')
    ensures SplitTag(path + Opt('@', tag)) == (path, tag)
  {
    hide LastIndex, Index;
    var s := path + Opt('@', tag);
    if tag != "" {
      assert s == path + ['@'] + tag;
      LastIndexSplit(path, tag, '@');
      assert s[..|path|] == path && s[|path| + 1..] == tag;
    } else {
      assert s == path;
    }
  }

  // A colon of the path belongs to the registry.
  lemma ColonInRegistry(r: RemoteRef)
    requires Printable(r)
    ensures '@' !in Path(r) && LastIndex(Path(r), ':') < Index(Path(r), '/')
  {
    RestPlain(r);
    assert '@' !in r.registry && '/' !in r.registry;
    hide *;
    ColonBeforeSlash(r.registry, Rest(r));
  }

  lemma ColonBeforeSlash(a: string, rest: string)
    requires '/' !in a && rest != "" && rest[0] == '/' && ':' !in rest
    ensures LastIndex(a + rest, ':') < Index(a + rest, '/')
  {
    hide LastIndex, Index;
    var s, n := a + rest, |a|;
    assert s == a + ['/'] + rest[1..];
    IndexSplit(a, rest[1..], '/');
    assert s[n..] == rest;
    assert forall i | n <= i < |s| :: s[i] == s[n..][i - n];
  }

  lemma Untrimmed(s: string)
    requires s != "" && !IsSpace(s[0]) && !IsSpace(s[|s| - 1])
    ensures TrimSpace(s) == s
  {
  }

  lemma PrintedEnds(r: RemoteRef, c: char)
    requires Printable(r) && TagPlain(r, c)
    ensures var s := Written(r, c); s != "" && !IsSpace(s[0]) && !IsSpace(s[|s| - 1])
  {
    RestPlain(r);
    EndChars(r, c);
    PrintedText(r, c);
    hide *;
    EndsOf(r.registry, Rest(r), Opt(c, r.tag));
  }

  lemma PrintedText(r: RemoteRef, c: char)
    ensures Written(r, c) == r.registry + Rest(r) + Opt(c, r.tag)
  {
    hide Opt, KindText;
    var a, b, c := Opt('/', r.repository), Opt('/', KindText(r.kind)), ['/'] + r.name;
    assert r.registry + a + b + ['/'] + r.name == r.registry + (a + b + c);
  }

  lemma EndChars(r: RemoteRef, c: char)
    requires Printable(r)
    ensures !IsSpace('/') && (r.registry != "" ==> !IsSpace(r.registry[0]))
    ensures r.tag == "" && r.name != "" ==> !IsSpace(r.name[|r.name| - 1])
    ensures var t := Opt(c, r.tag); if r.tag == "" then t == "" else t != "" && !IsSpace(t[|t| - 1])
  {
  }

  lemma EndsOf(a: string, b: string, c: string)
    requires b != "" && !IsSpace(b[0]) && (a != "" ==> !IsSpace(a[0]))
    requires if c == "" then !IsSpace(b[|b| - 1]) else !IsSpace(c[|c| - 1])
    ensures var s := a + b + c; s != "" && !IsSpace(s[0]) && !IsSpace(s[|s| - 1])
  {
  }

  lemma NoScheme(r: RemoteRef, c: char)
    requires Printable(r)
    ensures TrimScheme(Written(r, c)) == Written(r, c)
  {
    RestPlain(r);
    PrintedText(r, c);
    assert '/' !in r.registry && r.registry != "oci:";
    hide Path, Rest, Printable, Written;
    SchemeShape(r, Written(r, c));
  }

  lemma SchemeShape(r: RemoteRef, s: string)
    requires |r.registry| < |s| && s[..|r.registry|] == r.registry && s[|r.registry|] == '/'
    requires '/' !in r.registry && r.registry != "oci:"
    ensures !(Scheme <= s)
  {
    var n := |r.registry|;
    forall i | 0 <= i < n ensures s[i] != '/' { assert s[..n][i] == s[i]; }
    if |s| >= 6 && s[4] == '/' {
      assert n <= 4;
      if n == 4 { assert r.registry == s[..4]; }
    }
  }

  // Parsing undoes printing exactly when no repository segment is the plural of
  // a kind.
  lemma ParseInvertsPrint(r: RemoteRef)
    requires Printable(r)
    ensures Parsed(ToString(r)) == Ok(r) <==> NoKindSegment(r)
  {
    ParseInvertsText(r, '@');
  }

  lemma ParseInvertsText(r: RemoteRef, c: char)
    requires Printable(r) && TagPlain(r, c)
    ensures Parsed(Written(r, c)) == Ok(r) <==> NoKindSegment(r)
  {
    PrintedEnds(r, c);
    NoScheme(r, c);
    Untrimmed(Written(r, c));
    SplitTagPrinted(r, c);
    PathParts(r);
    hide *;
    ParsedPrinted(r, c);
    PartsInvert(r);
  }

  lemma ParsedPrinted(r: RemoteRef, c: char)
    requires TrimScheme(TrimSpace(Written(r, c))) == Written(r, c) && TrimSpace(Written(r, c)) != ""
    requires SplitTag(Written(r, c)) == (Path(r), r.tag) && Split(Path(r), '/') == Parts(r)
    ensures |Parts(r)| >= 2 && Parsed(Written(r, c)) == Ok(FromParts(Parts(r), r.tag))
  {
  }

  lemma PartsInvert(r: RemoteRef)
    requires Printable(r) && |Parts(r)| >= 2
    ensures FromParts(Parts(r), r.tag) == r <==> NoKindSegment(r)
  {
    var repo := OptParts(r.repository);
    var tail := OptParts(KindText(r.kind)) + [r.name];
    JoinSplit(r.repository, '/');
    assert Join(repo, '/') == r.repository && Plain(repo, '/');
    KindTail(r);
    assert Parts(r) == [r.registry] + repo + tail;
    assert NoKindSegment(r) <==> forall s | s in repo :: KindFromPlural(s).None?;
    hide *;
    if NoKindSegment(r) {
      InvertPlain(r, Parts(r), repo, tail);
    } else {
      InvertFails(r, Parts(r), repo, tail);
    }
  }

  lemma InvertPlain(r: RemoteRef, parts: seq<string>, repo: seq<string>, tail: seq<string>)
    requires parts == [r.registry] + repo + tail && Join(repo, '/') == r.repository
    requires forall s | s in repo :: KindFromPlural(s).None?
    requires r.kind == "" ==> tail == [r.name]
    requires r.kind != "" ==> |tail| == 2 && KindFromPlural(tail[0]) == Some(r.kind) && tail[1] == r.name
    requires |parts| >= 2
    ensures FromParts(parts, r.tag) == r
  {
    var n := |repo|;
    assert parts[1..n + 1] == repo;
    NoneBefore(parts, repo);
    hide KindAt, KindFromPlural, Join;
    if r.kind != "" {
      assert parts[n + 1] == tail[0] && parts[n + 2] == r.name;
      KindAtIs(parts, 1, n + 1);
    } else {
      KindAtNone(parts, 1);
    }
  }

  lemma InvertFails(r: RemoteRef, parts: seq<string>, repo: seq<string>, tail: seq<string>)
    requires parts == [r.registry] + repo + tail && Join(repo, '/') == r.repository && Plain(repo, '/')
    requires |tail| >= 1 && (r.repository == "" ==> repo == [])
    requires exists s :: s in repo && KindFromPlural(s).Some?
    ensures |parts| >= 2 && FromParts(parts, r.tag) != r
  {
    hide KindFromPlural, Join;
    var k :| 0 <= k < |repo| && KindFromPlural(repo[k]).Some?;
    assert parts[k + 1] == repo[k];
    var i := KindAt(parts, 1);
    assert i <= k + 1;
    ShorterJoin(repo, i - 1);
    assert parts[1..i] == repo[..i - 1];
  }

  lemma NoneBefore(parts: seq<string>, repo: seq<string>)
    requires |parts| > |repo| && parts[1..|repo| + 1] == repo
    requires forall s | s in repo :: KindFromPlural(s).None?
    ensures forall j | 1 <= j < |repo| + 1 :: KindFromPlural(parts[j]).None?
  {
    forall j | 1 <= j < |repo| + 1 ensures KindFromPlural(parts[j]).None? {
      assert parts[j] == repo[j - 1] && repo[j - 1] in repo;
    }
  }

  lemma {:induction false} KindAtIs(parts: seq<string>, i: nat, k: nat)
    requires i <= k < |parts| - 1 && KindFromPlural(parts[k]).Some?
    requires forall j | i <= j < k :: KindFromPlural(parts[j]).None?
    ensures KindAt(parts, i) == k
    decreases k - i
  {
    if i < k { KindAtIs(parts, i + 1, k); }
  }

  lemma {:induction false} KindAtNone(parts: seq<string>, i: nat)
    requires i <= |parts| && forall j | i <= j < |parts| - 1 :: KindFromPlural(parts[j]).None?
    ensures KindAt(parts, i) == |parts|
    decreases |parts| - i
  {
    if i < |parts| - 1 { KindAtNone(parts, i + 1); }
  }

  // The kind's plural is one segment, and maps back.
  lemma KindTail(r: RemoteRef)
    requires Printable(r)
    ensures r.kind == "" ==> OptParts(KindText(r.kind)) == []
    ensures r.kind != "" ==>
              |OptParts(KindText(r.kind))| == 1 && KindFromPlural(OptParts(KindText(r.kind))[0]) == Some(r.kind)
  {
    if r.kind != "" {
      PluralPlain(r.kind);
      KindPlural(r.kind, "");
      hide Plural, KindFromPlural;
      SplitPlain(Plural(r.kind), '/');
    }
  }

  // Cutting segments off a repository changes it.
  lemma ShorterJoin(repo: seq<string>, k: nat)
    requires k < |repo| && Plain(repo, '/') && Join(repo, '/') != ""
    ensures Join(repo[..k], '/') != Join(repo, '/')
  {
    SplitJoin(repo, '/');
    if k > 0 { SplitJoin(repo[..k], '/'); }
  }

  // ---------------------------------------------------------------------
  // Local tags

  predicate Origin(registry: string, repository: string) {
    && registry != "" && '/' !in registry && '@' !in registry && registry != "oci:" && !IsSpace(registry[0])
    && '@' !in repository && ':' !in repository
  }

  // The tag an artifact pulled from a registry is stored under is a reference to
  // where it came from: read as one, it gives origin, kind, name and version,
  // exactly when no repository segment is the plural of a kind; the colon of a
  // port is no tag.
  lemma RemoteTagParses(ref: Reference, registry: string, repository: string)
    requires StorableIdentity(ref) && ref.version.value != "" && Origin(registry, repository)
    requires ref.remote == registry + Opt('/', repository)
    ensures var r := RemoteRef(registry, repository, ref.kind, ref.name, ref.version.value);
      Parsed(BuildLocalTag(ref)) == Ok(r) <==> NoKindSegment(r)
  {
    var r := RemoteRef(registry, repository, ref.kind, ref.name, ref.version.value);
    PlainIdentity(ref);
    assert Printable(r) && TagPlain(r, ':') by { hide NoKindSegment, Parsed; }
    assert BuildLocalTag(ref) == Written(r, ':') by {
      hide StorableIdentity, Printable, ValidKind;
      var k := Plural(ref.kind);
      assert ref.remote + "/" + k + "/" + ref.name == registry + Opt('/', repository) + Opt('/', k) + ['/'] + ref.name;
    }
    hide *;
    ParseInvertsText(r, ':');
  }

  // The tag of a built artifact reads as its kind, name and version, without an
  // origin.
  lemma BuiltTagParses(ref: Reference)
    requires StorableIdentity(ref) && ref.version.value != "" && ref.remote == ""
    ensures Parsed(BuildLocalTag(ref)) == Ok(RemoteRef(ref.kind, "", "", ref.name, ref.version.value))
  {
    var r := RemoteRef(ref.kind, "", "", ref.name, ref.version.value);
    PlainIdentity(ref);
    assert Printable(r) && TagPlain(r, ':') && NoKindSegment(r) by { hide Parsed; }
    assert BuildLocalTag(ref) == Written(r, ':') by { hide StorableIdentity, Printable, ValidKind; }
    hide *;
    ParseInvertsText(r, ':');
  }

  lemma PlainIdentity(ref: Reference)
    requires StorableIdentity(ref) && ref.version.value != ""
    ensures ValidKind(ref.kind) && ref.kind != "" && Plural(ref.kind) != "" && ref.kind != "oci:"
    ensures !IsSpace(ref.kind[0]) && '/' !in ref.kind && '@' !in ref.kind && ref.version.Some? && ref.name != ""
    ensures '/' !in ref.name && '@' !in ref.name && ':' !in ref.name && !IsSpace(ref.name[|ref.name| - 1])
    ensures var v := ref.version.value; '@' !in v && ':' !in v && !IsSpace(v[|v| - 1])
  {
    PlainKind(ref.kind);
    PlainName(ref.name);
    PlainVersion(ref.version.value);
    hide Plural, ValidName, VersionText, ValidKind, IsSpace;
  }

  // What names, kinds and versions are written with is no white space.
  lemma Visible(c: char)
    requires 'a' <= c <= 'z' || '0' <= c <= '9' || 'A' <= c <= 'Z' || c == '-' || c == '.' || c == '+'
    ensures !IsSpace(c)
  {
  }

  lemma PlainKind(kind: string)
    requires ValidKind(kind)
    ensures kind != "" && Plural(kind) != "" && kind != "oci:" && !IsSpace(kind[0])
    ensures '/' !in kind && '@' !in kind
  {
    PluralPlain(kind);
    hide Plural, ValidKind, IsSpace;
    assert kind[0] in kind && ':' !in kind;
    Visible(kind[0]);
  }

  lemma PlainName(name: string)
    requires ValidName(name)
    ensures name != "" && '/' !in name && '@' !in name && ':' !in name && !IsSpace(name[|name| - 1])
  {
    hide IsSpace;
    Visible(name[|name| - 1]);
  }

  lemma PlainVersion(v: string)
    requires VersionText(v) && v != ""
    ensures '@' !in v && ':' !in v && !IsSpace(v[|v| - 1])
  {
    hide IsSpace;
    var c := v[|v| - 1];
    assert c in v;
    Visible(c);
  }
}
