/** When the catalog refuses, and what it has stored when it does not (local.go:
    Store, StoreDedup, existsLocked, locateForDelete, storeInternalWith). */
module CatalogAnswers {
  import opened Base
  import opened LocalTag
  import opened OciContent
  import opened CatalogStore
  import opened ArtifactBuilders
  import opened CatalogSearch
  import opened CatalogChanges
  import opened ArtifactAnswers
  import L = ArtifactLookup

  // ---------------------------------------------------------------------
  // Which tags a reference fits

  // The annotations tag's artifact is known by: its blob's, overridden by its
  // descriptor's.
  ghost predicate KnownBy(s: Store, tag: string, anns: Annotations) {
    && tag in s.tags && s.tags[tag].digest in s.blobs
    && (match s.blobs[s.tags[tag].digest]
        case Raw(_) => false
        case Config(_, _, _, _, _, own) => anns == own + s.tags[tag].annotations
        case Manifest(_, _, own) => anns == own + s.tags[tag].annotations
        case Index(_, own) => anns == own + s.tags[tag].annotations)
  }

  ghost predicate VersionNamed(lib: Library, ref: Reference, version: string) {
    || ref.version.None? || ref.version.value == "" || ref.version.value == "latest"
    || VersionFits(lib.select(ref.version.value), if version == "" then None else lib.parse(version))
  }

  // What the annotations of a stored artifact say agrees with what the reference
  // says; a reference neither remote nor built here leaves the origin open.
  ghost predicate Named(lib: Library, ref: Reference, anns: Annotations, digest: Digest) {
    var version, remote := Value(anns, "org.opencontainers.image.version"), Value(anns, "dev.scafctl.source.canonical");
    && ref.name == Value(anns, "dev.scafctl.artifact.name") && ref.kind == Value(anns, "dev.scafctl.artifact.type")
    && ref.name != "" && (version == "" || lib.parse(version).Some?) && VersionNamed(lib, ref, version)
    && (ref.digest == "" || ref.digest == lib.digestText(digest))
    && (if ref.remote != "" then remote == ref.remote else ref.built ==> remote == "")
  }

  ghost predicate FitsRef(s: Store, lib: Library, ref: Reference, tag: string) {
    exists anns :: KnownBy(s, tag, anns) && Named(lib, ref, anns, s.tags[tag].digest)
  }

  lemma InfoIs(s: Store, lib: Library, tag: string)
    requires tag in s.tags
    ensures InfoForTag(s, lib, tag).Ok? ==>
              var info := InfoForTag(s, lib, tag).value; var anns := info.annotations;
              && KnownBy(s, tag, anns) && info.digest == s.tags[tag].digest
              && info.ref.name == Value(anns, AnnotationArtifactName)
              && info.ref.kind == Value(anns, AnnotationArtifactType)
              && info.ref.remote == Value(anns, AnnotationSourceCanonical) && info.ref.name != ""
              && (Value(anns, AnnotationVersion) == "" || lib.parse(Value(anns, AnnotationVersion)).Some?)
    ensures forall anns
              | KnownBy(s, tag, anns) && Value(anns, AnnotationArtifactName) != ""
                && (Value(anns, AnnotationVersion) == "" || lib.parse(Value(anns, AnnotationVersion)).Some?) ::
              InfoForTag(s, lib, tag).Ok? && InfoForTag(s, lib, tag).value.annotations == anns
  {
  }

  lemma FitsRefExactly(s: Store, lib: Library, ref: Reference, tag: string)
    requires ref.name != ""
    ensures FitsRef(s, lib, ref, tag) <==> MatchesTag(s, lib, QueryFromRef(lib, ref), tag)
  {
    if tag in s.tags {
      InfoIs(s, lib, tag);
      if InfoForTag(s, lib, tag).Ok? {
        var info := InfoForTag(s, lib, tag).value;
        CandidateFits(lib, ref, tag, info);
        FitsMatches(QueryFromRef(lib, ref), Candidate(lib, tag, info));
      }
      hide InfoForTag, L.Matches, Candidate, QueryFromRef, KnownBy, Named, Fits;
      NamedNeeds(lib, ref, s, tag);
    }
  }

  lemma NamedNeeds(lib: Library, ref: Reference, s: Store, tag: string)
    requires tag in s.tags
    ensures forall anns | Named(lib, ref, anns, s.tags[tag].digest) ::
              Value(anns, AnnotationArtifactName) != ""
              && (Value(anns, AnnotationVersion) == "" || lib.parse(Value(anns, AnnotationVersion)).Some?)
  {
  }

  lemma CandidateFits(lib: Library, ref: Reference, tag: string, info: ArtifactInfo)
    requires ref.name != ""
    requires var anns := info.annotations;
      && info.ref.name == Value(anns, AnnotationArtifactName) && info.ref.kind == Value(anns, AnnotationArtifactType)
      && info.ref.remote == Value(anns, AnnotationSourceCanonical)
      && (Value(anns, AnnotationVersion) == "" || lib.parse(Value(anns, AnnotationVersion)).Some?)
    ensures Fits(QueryFromRef(lib, ref), Candidate(lib, tag, info)) <==> Named(lib, ref, info.annotations, info.digest)
  {
    hide Value;
  }

  // A reference that can be searched for: it names an artifact and a kind, its
  // digest is one, and its version can be read.
  ghost predicate Searchable(lib: Library, ref: Reference) {
    && ref.name != "" && ref.kind != ""
    && (ref.version.None? || ref.version.value == "" || ref.version.value == "latest"
        || !lib.select(ref.version.value).Unparsable?)
    && (ref.digest == ""
        || (|ref.digest| == 71 && ref.digest[..7] == "sha256:"
            && forall i | 7 <= i < 71 :: '0' <= ref.digest[i] <= '9' || 'a' <= ref.digest[i] <= 'f'))
  }

  lemma SearchableIs(lib: Library, ref: Reference)
    ensures L.ValidQuery(QueryFromRef(lib, ref)) <==> Searchable(lib, ref)
  {
  }

  // Kind, name and version, with no digest: with an explicit origin the tag says
  // whether it is stored.
  predicate Identified(ref: Reference) {
    ref.kind != "" && ref.name != "" && ref.version.Some? && ref.digest == ""
  }

  // Whether a reference is stored: by its own tag if it is complete and its
  // origin explicit, else by the annotations of what is stored.
  lemma ExistsExactly(s: Store, lib: Library, ref: Reference)
    ensures var known := ref.remote != "" || ref.built;
      && (known && Identified(ref) ==> Exists(s, lib, ref) == Ok(BuildLocalTag(ref) in s.tags))
      && (!(known && Identified(ref)) && !Searchable(lib, ref) ==> Exists(s, lib, ref) == Err(InvalidQuery))
      && (!(known && Identified(ref)) && Searchable(lib, ref) ==>
            Exists(s, lib, ref).Ok? && (Exists(s, lib, ref).value <==> exists t :: FitsRef(s, lib, ref, t)))
  {
    SearchableIs(lib, ref);
    var q := QueryFromRef(lib, ref);
    if Searchable(lib, ref) {
      forall t ensures t in SearchTags(s, lib, q) <==> FitsRef(s, lib, ref, t) {
        MatchesInTags(s, lib, q, t);
        FitsRefExactly(s, lib, ref, t);
      }
    }
    hide SearchTags, FitsRef, BuildLocalTag, QueryFromRef, L.ValidQuery, Searchable;
    if Searchable(lib, ref) && SearchTags(s, lib, q) != {} {
      var t :| t in SearchTags(s, lib, q);
      assert FitsRef(s, lib, ref, t);
    }
  }

  // What Delete removes: the reference's own tag, or the single tag whose
  // annotations agree with it.
  lemma LocatedExactly(s: Store, lib: Library, ref: Reference)
    ensures var known := ref.remote != "" || ref.built;
      && (known && Identified(ref) ==>
            Located(s, lib, ref) == if BuildLocalTag(ref) in s.tags then Ok(BuildLocalTag(ref)) else Err(NotFound))
      && (!(known && Identified(ref)) && !Searchable(lib, ref) ==> Located(s, lib, ref) == Err(InvalidQuery))
      && (!(known && Identified(ref)) && Searchable(lib, ref) ==>
            && (Located(s, lib, ref) == Err(NotFound) <==> forall t :: !FitsRef(s, lib, ref, t))
            && (forall tag :: Located(s, lib, ref) == Ok(tag) <==> forall t :: FitsRef(s, lib, ref, t) <==> t == tag)
            && (Located(s, lib, ref).Err? ==>
                  Located(s, lib, ref).error == NotFound || Located(s, lib, ref).error == Ambiguous))
  {
    SearchableIs(lib, ref);
    var q := QueryFromRef(lib, ref);
    if Searchable(lib, ref) {
      forall t ensures t in SearchTags(s, lib, q) <==> FitsRef(s, lib, ref, t) {
        MatchesInTags(s, lib, q, t);
        FitsRefExactly(s, lib, ref, t);
      }
      OnlyOneExactly(SearchTags(s, lib, q));
    }
    hide SearchTags, FitsRef, BuildLocalTag, QueryFromRef, L.ValidQuery, Searchable, OnlyOne;
  }

  lemma OnlyOneExactly(tags: set<string>)
    ensures OnlyOne(tags) == Err(NotFound) <==> forall t :: t !in tags
    ensures forall tag :: OnlyOne(tags) == Ok(tag) <==> forall t :: t in tags <==> t == tag
    ensures OnlyOne(tags).Err? ==> OnlyOne(tags).error == NotFound || OnlyOne(tags).error == Ambiguous
  {
    if tags != {} { var t :| t in tags; }
    forall tag | forall t :: t in tags <==> t == tag ensures OnlyOne(tags) == Ok(tag) {
      assert tags == {tag};
    }
  }

  // ---------------------------------------------------------------------
  // When a write is refused

  // Without force, a write of a complete reference is refused exactly if its tag
  // is taken, whatever else is stored of the same name and version; of another
  // one, exactly if something stored agrees with it.
  lemma RefusedExactly(s: Store, lib: Library, ref: Reference, force: bool)
    ensures var r := Refused(s, lib, ref, force); var tag := BuildLocalTag(ref);
      && (force ==> r == None)
      && (!force && Identified(ref) ==> r == if tag in s.tags then Some(AlreadyExists(tag)) else None)
      && (!force && !Identified(ref) && !Searchable(lib, ref) ==> r == Some(InvalidQuery))
      && (!force && !Identified(ref) && Searchable(lib, ref) ==>
            r == if exists t :: FitsRef(s, lib, WriteRef(ref), t) then Some(AlreadyExists(tag)) else None)
  {
    ExistsExactly(s, lib, WriteRef(ref));
    WriteRefSame(lib, ref);
    hide Exists, FitsRef, Searchable, BuildLocalTag;
  }

  lemma WriteRefSame(lib: Library, ref: Reference)
    ensures var w := WriteRef(ref);
      && (w.remote != "" || w.built) && (Identified(w) <==> Identified(ref))
      && (Searchable(lib, w) <==> Searchable(lib, ref)) && BuildLocalTag(w) == BuildLocalTag(ref)
  {
    var w := WriteRef(ref);
    assert w.kind == ref.kind && w.name == ref.name && w.version == ref.version && w.digest == ref.digest;
    assert BuildLocalTag(w) == BuildLocalTag(ref) by { hide Searchable; }
  }

  // A build is refused for its reference, then for a taken tag, then for what
  // the builder finds.
  lemma InternalErrorExactly(s: Store, builder: Option<ArtifactBuilder>, force: bool)
    ensures var r := InternalError(s, builder, force);
      && (builder.None? ==> r == Some(InvalidReference))
      && (builder.Some? ==>
            var ref := BuilderRef(builder.value);
            if ref.kind == "" || ref.name == "" || (ref.version.None? && ref.digest == "")
            then r == Some(InvalidReference)
            else if !force && BuildLocalTag(ref) in s.tags then r == Some(AlreadyExists(BuildLocalTag(ref)))
            else (r.Some? <==> Pushes(builder.value).Err?) && (r.Some? ==> r.value == Pushes(builder.value).error))
  {
    hide Pushes, BuildLocalTag;
  }

  // ---------------------------------------------------------------------
  // What is written

  // The layers kept are those that are not empty, in their order.
  lemma {:induction false} NonEmptyExactly(a: seq<Layer>, b: seq<Layer>, x: Layer)
    ensures NonEmpty(a + b) == NonEmpty(a) + NonEmpty(b) && NonEmpty([]) == []
    ensures NonEmpty([x]) == if x.data == Raw([]) then [] else [x]
    decreases |a|
  {
    if a == [] {
      assert a + b == b;
    } else {
      NonEmptyExactly(a[1..], b, x);
      assert (a + b)[1..] == a[1..] + b && (a + b)[0] == a[0];
    }
  }

  // A plain write: the content under its kind's type, the bundle if there is
  // one, the layers given that are not empty.
  lemma StoreLayout(ref: Reference, content: seq<int>, bundle: seq<int>, annotations: Annotations, extra: seq<Layer>,
                    createdAt: string)
    requires ref.version.Some?
    ensures var a := StoreArtifact(ref, content, bundle, annotations, extra, createdAt);
      && a.layers == [Layer(MediaTypeForKind(ref.kind), Raw(content))]
                     + (if bundle == [] then []
                        else [Layer("application/vnd.scafctl.solution.bundle.v1+tar", Raw(bundle))]) + NonEmpty(extra)
      && (ref.kind == "solution" ==> a.layers[0].mediaType == "application/vnd.scafctl.solution.v1+yaml")
      && (ref.kind == "provider" ==> a.layers[0].mediaType == "application/vnd.scafctl.provider.v1+binary")
      && (ref.kind == "auth-handler" ==> a.layers[0].mediaType == "application/vnd.scafctl.auth-handler.v1+binary")
      && a.config.data.Config? && a.config.data.kind == ref.kind && a.config.data.name == ref.name
      && a.config.data.version == ref.version.value && a.config.data.createdAt == createdAt
  {
    hide NonEmpty, Stamp, DefaultOrigin, StripDescriptorOnly, ConfigMediaTypeForKind;
  }

  // A deduplicated write: the solution, the bundle manifest, the small files if
  // there are any, then every file in order, and last the layers given.
  lemma DedupLayout(ref: Reference, solution: seq<int>, manifest: seq<int>, smallTar: seq<int>, files: seq<seq<int>>,
                    annotations: Annotations, extra: seq<Layer>, createdAt: string)
    requires ref.version.Some?
    ensures var a := DedupArtifact(ref, solution, manifest, smallTar, files, annotations, extra, createdAt);
      var first := if smallTar == [] then 2 else 3;
      && |a.layers| >= first + |files|
      && a.layers[0] == Layer("application/vnd.scafctl.solution.v1+yaml", Raw(solution))
      && a.layers[1] == Layer("application/vnd.scafctl.solution.bundle-manifest.v2+json", Raw(manifest))
      && (smallTar != [] ==>
            a.layers[2] == Layer("application/vnd.scafctl.solution.bundle-small.v2+tar", Raw(smallTar)))
      && (forall i | 0 <= i < |files| ::
            a.layers[first + i] == Layer("application/vnd.scafctl.solution.bundle-blob.v2+octet-stream", Raw(files[i])))
      && a.layers[first + |files|..] == NonEmpty(extra)
      && a.config.data.Config? && a.config.data.kind == ref.kind && a.config.data.name == ref.name
      && a.config.data.version == ref.version.value && a.config.data.createdAt == createdAt
      && Value(a.rootAnnotations, AnnotationArtifactName) == ref.name
      && Value(a.rootAnnotations, AnnotationArtifactType) == ref.kind
      && Value(a.rootAnnotations, AnnotationVersion) == ref.version.value
      && AnnotationOrigin !in a.annotations && AnnotationSourceCanonical !in a.annotations
  {
    DistinctKeys();
    hide NonEmpty, ConfigMediaTypeForKind;
  }

  // What a Store's annotations say, key by key: the reference and the time given
  // replace the caller's, an origin is only given where the caller gave none.
  lemma StoreAnnotationsExactly(ref: Reference, content: seq<int>, bundle: seq<int>, annotations: Annotations,
                                extra: seq<Layer>, createdAt: string, k: string)
    requires ref.version.Some?
    ensures var a := StoreArtifact(ref, content, bundle, annotations, extra, createdAt);
      Value(a.rootAnnotations, k)
      == (if k == "dev.scafctl.artifact.type" then ref.kind
          else if k == "dev.scafctl.artifact.name" then ref.name
          else if k == "org.opencontainers.image.version" then ref.version.value
          else if k == "org.opencontainers.image.created" then createdAt
          else if k == "dev.scafctl.artifact.origin" && Value(annotations, k) == "" then "built"
          else Value(annotations, k))
  {
    DistinctKeys();
    hide NonEmpty, MediaTypeForKind, ConfigMediaTypeForKind, Optional;
  }

  // What the tag of a build says, key by key: the reference's identity, where it
  // came from if it is remote, and what else the caller said, unless empty.
  lemma BuildAnnotationsExactly(b: ArtifactBuilder, descAnnotations: Annotations, k: string)
    requires Pushes(b).Ok?
    ensures var ref, anns := BuilderRef(b), TaggedRoot(b, descAnnotations).annotations;
      && (k == "dev.scafctl.artifact.type" ==> k in anns && anns[k] == ref.kind)
      && (k == "dev.scafctl.artifact.name" ==> k in anns && anns[k] == ref.name)
      && (k == "org.opencontainers.image.version" && ref.version.Some? ==> k in anns && anns[k] == ref.version.value)
      && (k == "dev.scafctl.source.canonical" ==> (k in anns <==> ref.remote != "") && Value(anns, k) == ref.remote)
      && (k != "dev.scafctl.artifact.type" && k != "dev.scafctl.artifact.name" && k != "dev.scafctl.source.canonical"
          && k != "org.opencontainers.image.version" ==>
            (k in anns <==> Value(descAnnotations, k) != "") && Value(anns, k) == Value(descAnnotations, k))
  {
    DistinctKeys();
    hide Pushes, BuilderRef;
  }

  // A builder writes the layers it was given, in order, under its own identity.
  lemma BuilderLayout(m: ManifestBuilder)
    ensures Encoded(m).Ok? <==>
              (m.ref.kind == "solution" || m.ref.kind == "provider" || m.ref.kind == "auth-handler")
              && m.ref.name != "" && m.ref.version.Some? && m.layers != []
    ensures Encoded(m).Ok? ==>
              var a := Encoded(m).value;
              && a.layers == m.layers && a.config.data.Config? && a.config.data.kind == m.ref.kind
              && a.config.data.name == m.ref.name && a.config.data.version == m.ref.version.value
              && a.config.data.platform == m.platform && a.config.data.createdAt == m.createdAt
  {
    hide ManifestAnnotations;
  }
}
