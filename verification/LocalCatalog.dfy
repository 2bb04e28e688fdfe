/** The local catalog object (local.go, local_multiplatform.go): every operation
    that changes what is stored, run one at a time under the catalog's lock. Each
    performs its operation's change. */
module LocalCatalog {
  import opened Base
  import opened LocalTag
  import opened OciContent
  import opened CatalogStore
  import opened ArtifactBuilders
  import opened CatalogSearch
  import opened Archive
  import opened CatalogChanges
  import opened CatalogAnswers
  import opened ArchiveAnswers
  import L = ArtifactLookup

  class Catalog {
    const lib: Library
    var blobs: Blobs
    var tags: map<string, Descriptor>
    var listed: map<Digest, Descriptor>

    function State(): Store
      reads this
    {
      Store(blobs, tags, listed)
    }

    constructor (lib: Library)
      ensures State() == Empty() && Valid(State()) && this.lib == lib
    {
      this.lib := lib;
      blobs, tags, listed := map[], map[], map[];
    }

    lemma StateFields()
      ensures State().blobs == blobs && State().tags == tags && State().listed == listed
    {
    }

    // -------------------------------------------------------------------
    // The OCI store

    method PushBlob(layer: Layer) returns (desc: Descriptor)
      modifies this`blobs, this`listed
      ensures State() == Pushed(old(State()), layer)
      ensures desc == DescriptorOf(layer)
    {
      desc := DescriptorOf(layer);
      if desc.digest !in blobs {
        blobs := blobs[desc.digest := layer.data];
        if IsListedType(layer.mediaType) {
          listed := listed[desc.digest := desc];
        }
      }
    }

    // A run of pushes, in order, and their descriptors.
    method PushLayers(layers: seq<Layer>) returns (descs: seq<Descriptor>)
      modifies this`blobs, this`listed
      ensures State() == PushedAll(old(State()), layers)
      ensures descs == Descriptors(layers)
    {
      descs := [];
      for i := 0 to |layers|
        invariant State() == PushedAll(old(State()), layers[..i])
        invariant |descs| == i && forall j | 0 <= j < i :: descs[j] == DescriptorOf(layers[j])
        invariant tags == old(tags)
      {
        assert layers[..i + 1][..i] == layers[..i];
        var desc := PushBlob(layers[i]);
        descs := descs + [desc];
      }
      assert layers[..|layers|] == layers;
    }

    method Tag(desc: Descriptor, tag: string) returns (ok: bool)
      modifies this`tags, this`listed
      ensures ok == (desc.digest in blobs)
      ensures State() == if ok then Tagged(old(State()), desc, tag) else old(State())
    {
      ok := desc.digest in blobs;
      if ok {
        tags := tags[tag := desc];
        listed := listed[desc.digest := desc];
      }
    }

    method Untag(tag: string)
      modifies this`tags
      ensures State() == Untagged(old(State()), tag)
    {
      tags := tags - {tag};
    }

    // -------------------------------------------------------------------
    // Searching

    // The scan over all tags, in map order.
    method SearchLocked(q: L.Query) returns (found: set<string>)
      ensures found == SearchTags(State(), lib, q)
    {
      found := {};
      var todo := tags.Keys;
      while todo != {}
        invariant todo <= tags.Keys
        invariant found == set t | t in SearchTags(State(), lib, q) && t !in todo
      {
        var tag :| tag in todo;
        MatchesInTags(State(), lib, q, tag);
        if MatchesTag(State(), lib, q, tag) {
          found := found + {tag};
        }
        todo := todo - {tag};
      }
    }

    method ExistsLocked(ref: Reference) returns (r: Result<bool, Error>)
      ensures r == Exists(State(), lib, ref)
    {
      if HasFullIdentity(ref) {
        return Ok(BuildLocalTag(ref) in tags);
      }
      var q := QueryFromRef(lib, ref);
      if !L.ValidQuery(q) {
        return Err(InvalidQuery);
      }
      var found := SearchLocked(q);
      r := Ok(found != {});
    }

    // The check that a write makes first.
    method CheckAbsent(ref: Reference, force: bool) returns (refused: Option<Error>)
      ensures refused == Refused(State(), lib, ref, force)
    {
      if force {
        return None;
      }
      var found := ExistsLocked(WriteRef(ref));
      match found {
        case Err(e) => refused := Some(e);
        case Ok(is_) => refused := if is_ then Some(AlreadyExists(BuildLocalTag(ref))) else None;
      }
    }

    // -------------------------------------------------------------------
    // Storing

    // The common tail of Store and StoreDedup: content, config, the other
    // layers, the manifest, the tag.
    method StoreManifest(a: Artifact, tag: string) returns (root: Descriptor)
      requires Valid(State()) && a.layers != []
      modifies this
      ensures root == Root(a) && State() == Published(old(State()), StorePushes(a), Root(a), tag)
      ensures Valid(State()) && tags == old(tags)[tag := root]
    {
      ghost var before := State();
      StorePublishable(a);
      PublishKeeps(before, StorePushes(a), Root(a), tag);
      hide Valid, Publishable;
      var content := PushBlob(a.layers[0]);
      var config := PushBlob(a.config);
      var rest := PushLayers(a.layers[1..]);
      assert [content] + rest == Descriptors(a.layers);
      ThreePushes(before, a);
      var manifest := PushBlob(Layer(MediaTypeManifest, Manifest(config, [content] + rest, a.annotations)));
      assert State() == PushedAll(before, StorePushes(a));
      RootStored(before, a);
      root := manifest.(annotations := a.rootAnnotations);
      var ok := Tag(root, tag);
    }

    method StoreContent(ref: Reference, content: seq<int>, bundle: seq<int>, annotations: Annotations, force: bool,
                 extra: seq<Layer>, createdAt: string) returns (r: Result<Descriptor, Error>)
      requires Valid(State()) && ref.version.Some?
      modifies this
      ensures Valid(State())
      ensures State() == Performed(old(State()), lib, Op.StoreContent(ref, content, bundle, annotations,
                                                                   force, extra, createdAt))
      ensures r == match Refused(old(State()), lib, ref, force)
                   case Some(e) => Err(e)
                   case None => Ok(Root(StoreArtifact(WriteRef(ref), content, bundle, annotations, extra, createdAt)))
      ensures !force && Identified(ref) ==>
                (BuildLocalTag(ref) in old(tags) <==> r == Err(AlreadyExists(BuildLocalTag(ref))))
      ensures r.Err? ==> State() == old(State())
      ensures r.Ok? ==> tags == old(tags)[BuildLocalTag(ref) := r.value]
    {
      ghost var op := Op.StoreContent(ref, content, bundle, annotations, force, extra, createdAt);
      StorePerformed(State(), lib, op);
      RefusedExactly(State(), lib, ref, force);
      var a := StoreArtifact(WriteRef(ref), content, bundle, annotations, extra, createdAt);
      assert a == WrittenArtifact(op);
      ghost var taken := BuildLocalTag(ref) in tags;
      assert taken <==> BuildLocalTag(ref) in State().tags;
      hide *;
      var refused := CheckAbsent(ref, force);
      if refused.Some? {
        return Err(refused.value);
      }
      var root := StoreManifest(a, BuildLocalTag(ref));
      r := Ok(root);
    }

    method StoreDedup(ref: Reference, solution: seq<int>, manifest: seq<int>, smallTar: seq<int>, files: seq<seq<int>>,
                      annotations: Annotations, force: bool, extra: seq<Layer>, createdAt: string)
      returns (r: Result<Descriptor, Error>)
      requires Valid(State()) && ref.version.Some?
      modifies this
      ensures Valid(State())
      ensures State() == Performed(old(State()), lib, Op.StoreDedup(ref, solution, manifest, smallTar, files,
                                                                    annotations, force, extra, createdAt))
      ensures r == match Refused(old(State()), lib, ref, force)
                   case Some(e) => Err(e)
                   case None => Ok(Root(DedupArtifact(WriteRef(ref), solution, manifest, smallTar, files, annotations,
                                                      extra, createdAt)))
      ensures !force && Identified(ref) ==>
                (BuildLocalTag(ref) in old(tags) <==> r == Err(AlreadyExists(BuildLocalTag(ref))))
      ensures r.Err? ==> State() == old(State())
      ensures r.Ok? ==> tags == old(tags)[BuildLocalTag(ref) := r.value]
    {
      ghost var op := Op.StoreDedup(ref, solution, manifest, smallTar, files, annotations, force, extra, createdAt);
      StorePerformed(State(), lib, op);
      RefusedExactly(State(), lib, ref, force);
      var a := DedupArtifact(WriteRef(ref), solution, manifest, smallTar, files, annotations, extra, createdAt);
      assert a == WrittenArtifact(op);
      ghost var taken := BuildLocalTag(ref) in tags;
      assert taken <==> BuildLocalTag(ref) in State().tags;
      hide *;
      var refused := CheckAbsent(ref, force);
      if refused.Some? {
        return Err(refused.value);
      }
      var root := StoreManifest(a, BuildLocalTag(ref));
      r := Ok(root);
    }

    // An invalid platform stops the loop; what was pushed before it stays,
    // untagged.
    method StoreMultiPlatform(ref: Reference, pbs: seq<PlatformBinary>, annotations: Annotations, force: bool,
                              createdAt: string) returns (r: Result<Descriptor, Error>)
      requires Valid(State()) && ref.version.Some?
      modifies this
      ensures Valid(State())
      ensures State() == Performed(old(State()), lib, Op.StoreMultiPlatform(ref, pbs, annotations, force, createdAt))
      ensures r == MultiResult(old(State()), lib, ref, pbs, annotations, force, createdAt)
      ensures pbs != [] && !force && Identified(ref) ==>
                (BuildLocalTag(ref) in old(tags) <==> r == Err(AlreadyExists(BuildLocalTag(ref))))
      ensures r.Err? ==> tags == old(tags)
      ensures r.Err? && r.error.AlreadyExists? ==> State() == old(State())
      ensures r.Ok? ==> tags == old(tags)[BuildLocalTag(ref) := r.value]
      ensures r.Err? && r.error.InvalidPlatform? ==> Binaries(ValidPrefix(pbs)) <= blobs.Keys
    {
      MultiRefused(State(), lib, ref, pbs, annotations, force, createdAt);
      StateFields();
      hide *;
      if pbs == [] {
        return Err(NoPlatforms);
      }
      var refused := CheckAbsent(ref, force);
      if refused.Some? {
        return Err(refused.value);
      }
      MultiCases(State(), lib, ref, pbs, annotations, force, createdAt);
      r := PublishPlatforms(WriteRef(ref), Stamp(WriteRef(ref), createdAt, annotations), createdAt, pbs,
                            BuildLocalTag(ref));
    }

    // What is left once the write is not refused: push the platforms, then the
    // index, and tag it.
    method PublishPlatforms(ref: Reference, anns: Annotations, createdAt: string, pbs: seq<PlatformBinary>, tag: string)
      returns (r: Result<Descriptor, Error>)
      requires Valid(State()) && ref.version.Some?
      modifies this
      ensures Valid(State())
      ensures r.Ok? <==> ValidPrefix(pbs) == pbs
      ensures r.Err? ==> |ValidPrefix(pbs)| < |pbs| && r.error == InvalidPlatform(pbs[|ValidPrefix(pbs)|].platform)
      ensures r.Err? ==> State() == PushedAll(old(State()), PlatformPushes(ref, anns, createdAt, ValidPrefix(pbs)))
      ensures r.Err? ==> tags == old(tags) && Binaries(ValidPrefix(pbs)) <= blobs.Keys
      ensures r.Ok? ==> r.value == MultiRoot(ref, anns, createdAt, pbs) && tags == old(tags)[tag := r.value]
      ensures r.Ok? ==> State() == Published(old(State()), MultiPushes(ref, anns, createdAt, pbs),
                                             MultiRoot(ref, anns, createdAt, pbs), tag)
    {
      ghost var before := State();
      StateFields();
      hide *;
      var entries := PushPlatforms(ref, anns, createdAt, pbs);
      if entries.Err? {
        return Err(entries.error);
      }
      MultiStep(before, ref, anns, createdAt, pbs);
      var index := PushBlob(IndexLayer(entries.value, anns));
      var root := index.(annotations := anns);
      MultiStored(before, ref, anns, createdAt, pbs, tag);
      var ok := Tag(root, tag);
      MultiTagged(before, ref, anns, createdAt, pbs, tag);
      StateFields();
      r := Ok(root);
    }

    // The loop over the binaries.
    method PushPlatforms(ref: Reference, anns: Annotations, createdAt: string, pbs: seq<PlatformBinary>)
      returns (r: Result<seq<Descriptor>, Error>)
      requires Valid(State()) && ref.version.Some?
      modifies this`blobs, this`listed
      ensures Valid(State()) && tags == old(tags)
      ensures State() == PushedAll(old(State()), PlatformPushes(ref, anns, createdAt, ValidPrefix(pbs)))
      ensures r.Ok? <==> ValidPrefix(pbs) == pbs
      ensures r.Ok? ==> r.value == PlatformEntries(ref, anns, createdAt, pbs)
      ensures r.Err? ==> |ValidPrefix(pbs)| < |pbs| && r.error == InvalidPlatform(pbs[|ValidPrefix(pbs)|].platform)
      ensures Binaries(ValidPrefix(pbs)) <= blobs.Keys
    {
      ghost var before := State();
      hide *;
      var entries := [];
      NoPlatformsYet(before, ref, anns, createdAt);
      assert pbs[..0] == [];
      for i := 0 to |pbs|
        invariant State() == PushedAll(before, PlatformPushes(ref, anns, createdAt, pbs[..i])) && tags == old(tags)
        invariant entries == PlatformEntries(ref, anns, createdAt, pbs[..i])
        invariant forall j | 0 <= j < i :: ValidPlatform(pbs[j].platform)
      {
        if !ValidPlatform(pbs[i].platform) {
          PushAllKeeps(before, PlatformPushes(ref, anns, createdAt, pbs[..i]));
          PrefixPushed(before, ref, anns, createdAt, pbs[..i]);
          StateFields();
          ValidPrefixIs(pbs, i);
          return Err(InvalidPlatform(pbs[i].platform));
        }
        var entry := PushPlatform(ref, anns, createdAt, pbs[i]);
        PlatformsStep(before, ref, anns, createdAt, pbs, i);
        entries := entries + [entry];
      }
      assert pbs[..|pbs|] == pbs;
      ValidPrefixIs(pbs, |pbs|);
      PushAllKeeps(before, PlatformPushes(ref, anns, createdAt, pbs));
      PrefixPushed(before, ref, anns, createdAt, pbs);
      StateFields();
      r := Ok(entries);
    }

    // One platform's content, config and manifest.
    method PushPlatform(ref: Reference, anns: Annotations, createdAt: string, pb: PlatformBinary)
      returns (entry: Descriptor)
      requires ref.version.Some?
      modifies this`blobs, this`listed
      ensures tags == old(tags)
      ensures var a := PlatformArtifact(ref, anns, createdAt, pb);
        State() == PushedAll(old(State()), StorePushes(a)) && entry == Root(a).(platform := pb.platform)
    {
      ghost var before := State();
      var a := PlatformArtifact(ref, anns, createdAt, pb);
      var content := PushBlob(a.layers[0]);
      var config := PushBlob(a.config);
      assert [content] == Descriptors(a.layers) && config == DescriptorOf(a.config);
      assert a.layers[1..] == [];
      ThreePushes(before, a);
      assert State() == PushedAll(Pushed(Pushed(before, a.layers[0]), a.config), []);
      var manifest := PushBlob(Layer(MediaTypeManifest, Manifest(config, [content], a.annotations)));
      entry := manifest.(annotations := a.rootAnnotations, platform := pb.platform);
    }

    method StoreInternalWith(builder: Option<ArtifactBuilder>, force: bool, descAnnotations: Annotations)
      returns (r: Result<Descriptor, Error>)
      requires Valid(State())
      modifies this
      ensures Valid(State())
      ensures State() == Performed(old(State()), lib, StoreInternal(builder, force, descAnnotations))
      ensures r == match InternalError(old(State()), builder, force)
                   case Some(e) => Err(e)
                   case None => Ok(TaggedRoot(builder.value, descAnnotations))
      ensures builder.Some? && Taggable(BuilderRef(builder.value)) && !force ==>
                (BuildLocalTag(BuilderRef(builder.value)) in old(tags)
                 <==> r == Err(AlreadyExists(BuildLocalTag(BuilderRef(builder.value)))))
      ensures r.Err? ==> State() == old(State())
      ensures r.Ok? ==> tags == old(tags)[BuildLocalTag(BuilderRef(builder.value)) := r.value]
    {
      if builder.None? {
        return Err(InvalidReference);
      }
      var ref := BuilderRef(builder.value);
      if !Taggable(ref) {
        return Err(InvalidReference);
      }
      var tag := BuildLocalTag(ref);
      if !force && tag in tags {
        return Err(AlreadyExists(tag));
      }
      var pushes := Pushes(builder.value);
      if pushes.Err? {
        PushesErrors(builder.value);
        return Err(pushes.error);
      }
      ghost var before := State();
      var root := TaggedRoot(builder.value, descAnnotations);
      PushesPublishable(builder.value, root.annotations);
      PublishKeeps(before, pushes.value.0, root, tag);
      hide Valid;
      var _ := PushLayers(pushes.value.0);
      RootPushed(before, pushes.value.0, root);
      var ok := Tag(root, tag);
      r := Ok(root);
    }

    // -------------------------------------------------------------------
    // Delete and Prune

    method Delete(ref: Reference) returns (r: Result<(), Error>)
      requires Valid(State())
      modifies this
      ensures Valid(State())
      ensures State() == Performed(old(State()), lib, Op.Delete(ref))
      ensures r == match Located(old(State()), lib, ref) case Ok(_) => Ok(()) case Err(e) => Err(e)
      ensures blobs == old(blobs) && listed == old(listed) && (r.Err? ==> tags == old(tags))
      ensures r.Ok? ==> exists tag :: tag in old(tags) && tags == old(tags) - {tag}
                                      && (if Identified(ref) && (ref.remote != "" || ref.built)
                                          then tag == BuildLocalTag(ref)
                                          else FitsRef(old(State()), lib, ref, tag))
    {
      DeletePerformed(State(), lib, ref);
      DeletedIs(State(), lib, ref);
      StateFields();
      hide *;
      var located := LocateForDelete(ref);
      if located.Err? {
        return Err(located.error);
      }
      UntagKeeps(State(), located.value);
      UntaggedFields(State(), located.value);
      Untag(located.value);
      StateFields();
      r := Ok(());
    }

    method LocateForDelete(ref: Reference) returns (r: Result<string, Error>)
      ensures r == Located(State(), lib, ref)
    {
      if HasFullIdentity(ref) {
        var tag := BuildLocalTag(ref);
        return if tag in tags then Ok(tag) else Err(NotFound);
      }
      var q := QueryFromRef(lib, ref);
      if !L.ValidQuery(q) {
        return Err(InvalidQuery);
      }
      var found := SearchLocked(q);
      if |found| == 0 {
        return Err(NotFound);
      }
      if |found| == 1 {
        ghost var only := OnlyOne(found);
        var tag :| tag in found;
        return Ok(tag);
      }
      r := Err(Ambiguous);
    }

    // Marks what can be found from desc; a missing blob ends the walk there.
    method MarkReferencedBlobs(desc: Descriptor, refs: set<Digest>) returns (refs': set<Digest>)
      requires ContentAddressed(blobs)
      ensures refs' == refs + Found(blobs, desc)
      decreases desc
    {
      refs' := refs;
      if desc.digest !in blobs {
        return;
      }
      var data := blobs[desc.digest];
      refs' := refs' + {desc.digest};
      if IsImageIndex(desc) {
        if data.Index? {
          ghost var found: set<Digest> := {};
          for i := 0 to |data.manifests|
            invariant refs' == refs + {desc.digest} + FoundUpTo(blobs, data.manifests, i)
          {
            refs' := MarkReferencedBlobs(data.manifests[i], refs');
          }
          FoundUpToAll(blobs, desc);
        }
      } else if data.Manifest? {
        refs' := refs' + {data.config.digest} + DigestSet(data.layers);
      }
    }

    // Removes what no tag reaches, and says what it removed.
    method Prune() returns (removedManifests: set<Digest>, removedBlobs: set<Digest>)
      requires Valid(State())
      modifies this
      ensures State() == Pruned(old(State())) == Performed(old(State()), lib, Op.Prune) && Valid(State())
      ensures tags == old(tags)
      ensures removedManifests == old(listed).Keys - Referenced(old(State()))
      ensures removedBlobs == old(blobs).Keys - Referenced(old(State()))
    {
      ghost var before := State();
      hide *;
      assert before.blobs == blobs && before.listed == listed && before.tags == tags by { StateFields(); }
      var refs := MarkAll();
      removedManifests := FilterIndex(refs);
      removedBlobs := RemoveBlobs(refs);
      ghost var after := State();
      assert after.blobs == blobs && after.listed == listed && after.tags == tags by { StateFields(); }
      PrunedIs(before, after, refs);
      PrunePerformed(before, lib);
    }

    // Steps 1 to 3 of Prune: mark, filter the index, remove the blobs.
    method MarkAll() returns (refs: set<Digest>)
      requires Valid(State())
      ensures refs == Referenced(State())
    {
      ghost var s := State();
      ValidAddressed(s);
      hide *;
      assert s.blobs == blobs && s.tags == tags by { StateFields(); }
      refs := {};
      var todo := tags.Keys;
      MarksOfNone(s);
      while todo != {}
        invariant todo <= tags.Keys
        invariant refs == MarksOf(s, tags.Keys - todo)
      {
        var tag :| tag in todo;
        var desc := tags[tag];
        MarksOneMore(s, todo, tag);
        refs := MarkReferencedBlobs(desc, refs + {desc.digest});
        todo := todo - {tag};
      }
      MarksOfAll(s, todo);
    }

    method FilterIndex(refs: set<Digest>) returns (removed: set<Digest>)
      modifies this`listed
      ensures removed == old(listed).Keys - refs
      ensures listed == Kept(old(listed), refs)
    {
      removed := listed.Keys - refs;
      KeptAll(listed, refs);
      if removed != {} {
        listed := Kept(listed, refs);
      }
    }

    method RemoveBlobs(refs: set<Digest>) returns (removed: set<Digest>)
      modifies this`blobs
      ensures removed == old(blobs).Keys - refs
      ensures blobs == Kept(old(blobs), refs)
    {
      removed := {};
      var files := blobs.Keys;
      while files != {}
        invariant files <= old(blobs).Keys
        invariant removed == old(blobs).Keys - files - refs
        invariant blobs == old(blobs) - removed
      {
        var d :| d in files;
        files := files - {d};
        if d !in refs {
          blobs := blobs - {d};
          removed := removed + {d};
        }
      }
    }

    // -------------------------------------------------------------------
    // Save and Load

    // listing: the tags in the order the store lists them; sort: the sort of the
    // standard library.
    method Save(name: string, version: string, preReleases: bool, listing: seq<string>,
                sort: seq<L.Info> -> seq<L.Info>)
      returns (r: Result<(seq<Entry>, Reference, Digest), Error>)
      requires Valid(State()) && Elems(listing) == tags.Keys && L.Sorts(sort)
      ensures match Resolved(State(), lib, name, version, preReleases, listing, sort)
              case Err(e) => r == Err(e)
              case Ok(info) =>
                match Saved(State(), info)
                case Err(e) => r == Err(e)
                case Ok(c) =>
                  if info.ref.version.None? then r == Err(NilVersion)
                  else r.Ok? && Read(r.value.0) == c && r.value.1 == info.ref
                       && r.value.2 == tags[BuildLocalTag(info.ref)].digest
    {
      var resolved := ResolveForSave(name, version, preReleases, listing, sort);
      if resolved.Err? {
        return Err(resolved.error);
      }
      var info := resolved.value;
      var tag := BuildLocalTag(info.ref);
      hide Resolved;
      if tag !in tags {
        return Err(NotFound);
      }
      var desc := tags[tag];
      TagComplete(State(), tag);
      var entries := [LayoutFile(LayoutVersion)];
      assert Read(entries) == Contents(Some(LayoutVersion), None, map[])
        by { ReadAppend([], LayoutFile(LayoutVersion)); }
      SavedTag(State(), info);
      var wanted := CollectBlobsForExport(desc, {});
      hide *;
      entries := WriteBlobs(entries, wanted);
      var index := IndexFile([desc.(annotations := info.annotations, platform := "")]);
      ReadAppend(entries, index);
      SavedIs(State(), info, Read(entries));
      if info.ref.version.None? {
        return Err(NilVersion);
      }
      r := Ok((entries + [index], info.ref, desc.digest));
    }

    method ResolveForSave(name: string, version: string, preReleases: bool, listing: seq<string>,
                          sort: seq<L.Info> -> seq<L.Info>) returns (r: Result<ArtifactInfo, Error>)
      requires Elems(listing) == tags.Keys && L.Sorts(sort)
      ensures r == Resolved(State(), lib, name, version, preReleases, listing, sort)
    {
      if version != "" && Canonical(lib, version).None? {
        return Err(InvalidVersion);
      }
      var all := ScanTags(listing);
      var found := L.FindLocked(SaveQuery(lib, name, version), false, preReleases, all, sort);
      if found.Err? {
        return Err(FromFind(found.error));
      }
      L.FoundMatches(SaveQuery(lib, name, version), false, preReleases, all, sort);
      ScanElems(State(), lib, listing);
      r := InfoForTag(State(), lib, found.value.tag);
    }

    method ScanTags(listing: seq<string>) returns (all: seq<L.Info>)
      ensures all == Scan(State(), lib, listing)
    {
      all := [];
      for i := 0 to |listing|
        invariant all == Scan(State(), lib, listing[..i])
      {
        assert listing[..i + 1][..i] == listing[..i];
        var tag := listing[i];
        if tag in tags {
          var info := InfoForTag(State(), lib, tag);
          if info.Ok? {
            all := all + [Candidate(lib, tag, info.value)];
          }
        }
      }
      assert listing[..|listing|] == listing;
    }

    // Appends the wanted blobs to an archive without any.
    method WriteBlobs(entries: seq<Entry>, wanted: set<Digest>) returns (entries': seq<Entry>)
      requires wanted <= blobs.Keys && Read(entries).blobs == map[]
      ensures Read(entries') == Read(entries).(blobs := Kept(blobs, wanted))
    {
      entries' := entries;
      var todo := wanted;
      assert Kept(blobs, wanted - todo) == map[];
      hide Read;
      while todo != {}
        invariant todo <= wanted
        invariant Read(entries') == Read(entries).(blobs := Kept(blobs, wanted - todo))
      {
        var d :| d in todo;
        ReadAppend(entries', BlobFile(d, blobs[d]));
        RestrictMore(blobs, wanted - todo, d);
        entries' := entries' + [BlobFile(d, blobs[d])];
        todo := todo - {d};
        assert wanted - todo == wanted - (todo + {d}) + {d};
      }
      assert wanted - todo == wanted;
    }

    method CollectBlobsForExport(desc: Descriptor, found: set<Digest>) returns (found': set<Digest>)
      requires ContentAddressed(blobs) && Complete(blobs, desc) && Proper(desc)
      ensures found' == found + Exported(desc)
      decreases desc
    {
      hide *;
      ExportStart(blobs, desc);
      found' := found + {desc.digest};
      var data := blobs[desc.digest];
      if IsImageIndex(desc) {
        for i := 0 to |data.manifests|
          invariant found' == found + ({desc.digest} + ExportedUpTo(data.manifests, i))
        {
          ExportChild(blobs, desc, i);
          found' := CollectBlobsForExport(data.manifests[i], found');
        }
      } else if desc.mediaType == MediaTypeManifest {
        found' := found' + {data.config.digest} + DigestSet(data.layers);
      }
    }

    // Read is the archive reader's loop.
    method ReadArchive(entries: seq<Entry>) returns (c: Contents)
      ensures c == Read(entries)
    {
      c := Contents(None, None, map[]);
      for i := 0 to |entries|
        invariant c == Read(entries[..i])
      {
        assert entries[..i + 1][..i] == entries[..i];
        c := ReadEntry(c, entries[i]);
      }
      assert entries[..|entries|] == entries;
    }

    // An archive some of whose data does not match its digest is refused at the
    // first such blob met, after others may have been stored.
    method Load(entries: seq<Entry>, force: bool) returns (r: Result<(Reference, Digest), Error>)
      requires Valid(State())
      modifies this
      ensures ContentAddressed(Read(entries).blobs) ==>
                State() == Performed(old(State()), lib, Op.Load(Read(entries), force))
      ensures r.Err? && r.error != NilVersion ==> tags == old(tags) && Valid(State())
      ensures r.Ok? || r == Err(NilVersion) ==>
                && Announced(lib, Read(entries)).Ok?
                && (var (ref, desc) := Announced(lib, Read(entries)).value;
                    && (force || Exists(old(State()), lib, ref) == Ok(false))
                    && ContentAddressed(Read(entries).blobs)
                    && State() == Loaded(old(State()), Read(entries), ref, desc)
                    && (r.Ok? <==> ref.version.Some?) && (r.Ok? ==> r.value == (ref, desc.digest))
                    && (Valid(State()) <==> Complete(blobs, desc) && Proper(desc)))
      ensures Announced(lib, Read(entries)).Err? ==> r == Err(Announced(lib, Read(entries)).error)
      ensures forall ref, desc | Announces(lib, Read(entries), ref, desc) ::
                && (!force && Identified(ref) ==>
                      (BuildLocalTag(ref) in old(tags) <==> r == Err(AlreadyExists(BuildLocalTag(ref)))))
                && ((force || (Identified(ref) && BuildLocalTag(ref) !in old(tags)))
                    && ContentAddressed(Read(entries).blobs)
                    && (desc.digest in old(blobs) || desc.digest in Read(entries).blobs) ==>
                      r == if ref.version.Some? then Ok((ref, desc.digest)) else Err(NilVersion))
                && (r.Ok? ==> blobs == old(blobs) + Read(entries).blobs
                              && tags == old(tags)[BuildLocalTag(ref) := desc])
    {
      hide *;
      var c := ReadArchive(entries);
      var announced := Announced(lib, c);
      AnnouncedOnly(lib, c);
      AnnouncedNeverNil(lib, c);
      StateFields();
      ghost var before := State();
      if ContentAddressed(c.blobs) { LoadCases(before, lib, c, force); }
      if announced.Err? {
        return Err(announced.error);
      }
      var (ref, desc) := announced.value;
      KnownExists(State(), lib, ref);
      if !force {
        var found := ExistsLocked(ref);
        ExistsNeverNil(State(), lib, ref);
        if found.Err? {
          return Err(found.error);
        }
        if found.value {
          return Err(AlreadyExists(BuildLocalTag(ref)));
        }
      }
      var ok := PushArchiveBlobs(c.blobs);
      if !ok {
        return Err(InvalidArchive);
      }
      StateFields();
      ok := Tag(desc, BuildLocalTag(ref));
      StateFields();
      if !ok {
        return Err(MissingBlob);
      }
      LoadedIs(before, State(), c, ref, desc);
      LoadedFields(before, c, ref, desc);
      LoadExact(before, c, ref, desc);
      if ref.version.None? {
        return Err(NilVersion);
      }
      r := Ok((ref, desc.digest));
    }

    // The store refuses data that does not match its digest.
    method PushArchiveBlobs(more: Blobs) returns (ok: bool)
      requires Valid(State())
      modifies this`blobs
      ensures Valid(State()) && tags == old(tags) && listed == old(listed)
      ensures ok <==> ContentAddressed(more)
      ensures ok ==> State() == old(State()).(blobs := old(State()).blobs + more)
    {
      ghost var before := State();
      ghost var done: set<Digest> := {};
      ValidAddressed(before);
      var todo := more.Keys;
      RestrictNothing(before, more);
      while todo != {}
        invariant todo == more.Keys - done && done <= more.Keys
        invariant tags == old(tags) && listed == old(listed)
        invariant ContentAddressed(Kept(more, done))
        invariant blobs == before.blobs + Kept(more, done)
      {
        var d :| d in todo;
        MoreBlobsValid(before, Kept(more, done));
        if more[d] != d.content {
          assert before.(blobs := before.blobs + Kept(more, done)) == State();
          return false;
        }
        RestrictOneMore(before, more, done, d);
        if d !in blobs {
          blobs := blobs[d := more[d]];
        }
        todo := todo - {d};
        done := done + {d};
      }
      assert Kept(more, done) == more;
      MoreBlobsValid(before, more);
      ok := true;
    }
  }

  // ---------------------------------------------------------------------
  // What the methods' contracts speak of

  // What StoreMultiPlatform answers: the first of the refusals, or the root.
  ghost function MultiResult(s: Store, lib: Library, ref: Reference, pbs: seq<PlatformBinary>, annotations: Annotations,
                             force: bool, createdAt: string): Result<Descriptor, Error>
    requires ref.version.Some?
  {
    if pbs == [] then Err(NoPlatforms)
    else
      match Refused(s, lib, ref, force)
      case Some(e) => Err(e)
      case None =>
        if |ValidPrefix(pbs)| < |pbs| then Err(InvalidPlatform(pbs[|ValidPrefix(pbs)|].platform))
        else Ok(MultiRoot(WriteRef(ref), Stamp(WriteRef(ref), createdAt, annotations), createdAt, pbs))
  }

  ghost function Binaries(pbs: seq<PlatformBinary>): set<Digest> {
    set i | 0 <= i < |pbs| :: Digest(Raw(pbs[i].data))
  }

  // Every binary pushed is stored.
  lemma PrefixPushed(s: Store, ref: Reference, anns: Annotations, createdAt: string, pbs: seq<PlatformBinary>)
    requires Valid(s) && ref.version.Some?
    ensures Binaries(pbs) <= PushedAll(s, PlatformPushes(ref, anns, createdAt, pbs)).blobs.Keys
  {
    PushAllKeeps(s, PlatformPushes(ref, anns, createdAt, pbs));
    BinariesPushed(ref, anns, createdAt, pbs);
    hide Valid, PlatformPushes, PushedAll, DataDigests, Binaries;
  }

  lemma {:induction false} BinariesPushed(ref: Reference, anns: Annotations, createdAt: string,
                                          pbs: seq<PlatformBinary>)
    requires ref.version.Some?
    ensures Binaries(pbs) <= DataDigests(PlatformPushes(ref, anns, createdAt, pbs))
    decreases |pbs|
  {
    if pbs != [] {
      var init, last := pbs[..|pbs| - 1], pbs[|pbs| - 1];
      BinariesPushed(ref, anns, createdAt, init);
      var more := StorePushes(PlatformArtifact(ref, anns, createdAt, last));
      DataDigestsConcat(PlatformPushes(ref, anns, createdAt, init), more);
      assert more[0].data == Raw(last.data);
      assert Digest(more[0].data) in DataDigests(more);
      hide PlatformArtifact, StorePushes, DataDigests;
      forall d | d in Binaries(pbs) ensures d in Binaries(init) || d == Digest(Raw(last.data)) {
        var i :| 0 <= i < |pbs| && d == Digest(Raw(pbs[i].data));
        if i < |init| { assert pbs[i] == init[i]; }
      }
    }
  }

  lemma MultiRefused(s: Store, lib: Library, ref: Reference, pbs: seq<PlatformBinary>, annotations: Annotations,
                     force: bool, createdAt: string)
    requires ref.version.Some?
    ensures var refused := Refused(s, lib, ref, force);
      && (force ==> refused == None)
      && (refused.Some? ==> !refused.value.InvalidPlatform?)
      && (!force && Identified(ref) ==>
            refused == if BuildLocalTag(ref) in s.tags then Some(AlreadyExists(BuildLocalTag(ref))) else None)
      && (pbs == [] || refused.Some? ==>
            && Performed(s, lib, Op.StoreMultiPlatform(ref, pbs, annotations, force, createdAt)) == s
            && MultiResult(s, lib, ref, pbs, annotations, force, createdAt)
               == Err(if pbs == [] then NoPlatforms else refused.value))
  {
    RefusedExactly(s, lib, ref, force);
    var op := Op.StoreMultiPlatform(ref, pbs, annotations, force, createdAt);
    ChangeIs(s, lib, op);
    PerformedIs(s, lib, op);
    assert PushedAll(s, []) == s;
    hide Refused, ChangeOf, Performed, Stamp, PlatformPushes, MultiPushes, MultiRoot, ValidPrefix, BuildLocalTag,
         Searchable, FitsRef, Published, ValidPlatform;
  }

  lemma MultiCases(s: Store, lib: Library, ref: Reference, pbs: seq<PlatformBinary>, annotations: Annotations,
                   force: bool,
                   createdAt: string)
    requires ref.version.Some? && pbs != [] && Refused(s, lib, ref, force).None?
    ensures WriteRef(ref).version.Some?
    ensures var anns := Stamp(WriteRef(ref), createdAt, annotations);
      var s' := Performed(s, lib, Op.StoreMultiPlatform(ref, pbs, annotations, force, createdAt));
      && (ValidPrefix(pbs) != pbs ==>
            s' == PushedAll(s, PlatformPushes(WriteRef(ref), anns, createdAt, ValidPrefix(pbs))))
      && (ValidPrefix(pbs) == pbs ==>
            s' == Published(s, MultiPushes(WriteRef(ref), anns, createdAt, pbs),
                            MultiRoot(WriteRef(ref), anns, createdAt, pbs), BuildLocalTag(ref)))
    ensures var r := MultiResult(s, lib, ref, pbs, annotations, force, createdAt);
      && (|ValidPrefix(pbs)| < |pbs| ==> r == Err(InvalidPlatform(pbs[|ValidPrefix(pbs)|].platform)))
      && (ValidPrefix(pbs) == pbs ==>
            r == Ok(MultiRoot(WriteRef(ref), Stamp(WriteRef(ref), createdAt, annotations), createdAt, pbs)))
  {
    hide Refused, ValidPrefix, Stamp, Published, PlatformPushes, MultiPushes, MultiRoot;
  }

  lemma MultiTagged(s: Store, ref: Reference, anns: Annotations, createdAt: string, pbs: seq<PlatformBinary>,
                    tag: string)
    requires Valid(s) && ref.version.Some?
    ensures var root := MultiRoot(ref, anns, createdAt, pbs);
      Published(s, MultiPushes(ref, anns, createdAt, pbs), root, tag).tags == s.tags[tag := root]
  {
    MultiPublishable(ref, anns, createdAt, pbs);
    PublishKeeps(s, MultiPushes(ref, anns, createdAt, pbs), MultiRoot(ref, anns, createdAt, pbs), tag);
    hide *;
  }

  // Whatever a builder finds wrong, it is not a taken tag.
  lemma PushesErrors(b: ArtifactBuilder)
    requires Pushes(b).Err?
    ensures !Pushes(b).error.AlreadyExists?
  {
    match b {
      case OneManifest(m) => EncodedErrors(m);
      case OneIndex(x) => EntriesErrors(x, 0);
    }
    hide Encoded, EntriesFrom;
  }

  lemma EncodedErrors(m: ManifestBuilder)
    ensures Encoded(m).Err? ==> !Encoded(m).error.AlreadyExists?
  {
    hide ManifestAnnotations;
  }

  lemma {:induction false} EntriesErrors(x: IndexBuilder, i: nat)
    requires i <= |x.platforms|
    ensures EntriesFrom(x, i).Err? ==> !EntriesFrom(x, i).error.AlreadyExists?
    decreases |x.platforms| - i
  {
    if i < |x.platforms| {
      EntriesErrors(x, i + 1);
      if x.platforms[i].builder.Some? { EncodedErrors(Stamped(x, x.platforms[i])); }
      hide Encoded;
    }
  }

  lemma DeletedIs(s: Store, lib: Library, ref: Reference)
    ensures Located(s, lib, ref).Ok? ==>
              var tag := Located(s, lib, ref).value;
              && tag in s.tags
              && (if Identified(ref) && (ref.remote != "" || ref.built) then tag == BuildLocalTag(ref)
                  else FitsRef(s, lib, ref, tag))
  {
    if Located(s, lib, ref).Ok? { LocatedMatches(s, lib, ref); }
    LocatedExactly(s, lib, ref);
    hide Located, FitsRef, BuildLocalTag, Searchable;
  }

  lemma UntaggedFields(s: Store, tag: string)
    ensures Untagged(s, tag).blobs == s.blobs && Untagged(s, tag).listed == s.listed
            && Untagged(s, tag).tags == s.tags - {tag}
  {
  }

  lemma LoadCases(s: Store, lib: Library, c: Contents, force: bool)
    requires ContentAddressed(c.blobs)
    ensures var s' := Performed(s, lib, Op.Load(c, force));
      match Announced(lib, c)
      case Err(_) => s' == s
      case Ok(pair) =>
        if !force && Exists(s, lib, pair.0) != Ok(false) then s' == s
        else if pair.1.digest in s.blobs || pair.1.digest in c.blobs then s' == Loaded(s, c, pair.0, pair.1)
        else s' == s.(blobs := s.blobs + c.blobs)
  {
    ChangeIs(s, lib, Op.Load(c, force));
    PerformedIs(s, lib, Op.Load(c, force));
    hide Announced, Exists, Loaded, ChangeOf, Performed;
    assert PushedAll(s, []) == s;
  }

  lemma LoadedIs(s: Store, s': Store, c: Contents, ref: Reference, desc: Descriptor)
    requires s' == Tagged(s.(blobs := s.blobs + c.blobs), desc, BuildLocalTag(ref))
    requires desc.digest in s'.blobs
    ensures s' == Loaded(s, c, ref, desc)
    ensures desc.digest in s.blobs.Keys + c.blobs.Keys && s'.blobs == s.blobs + c.blobs
  {
  }

  lemma KnownExists(s: Store, lib: Library, ref: Reference)
    requires ref.remote != "" || ref.built
    ensures Identified(ref) ==> Exists(s, lib, ref) == Ok(BuildLocalTag(ref) in s.tags)
  {
    ExistsExactly(s, lib, ref);
    hide *;
  }

  lemma LoadedFields(s: Store, c: Contents, ref: Reference, desc: Descriptor)
    ensures Loaded(s, c, ref, desc).tags == s.tags[BuildLocalTag(ref) := desc]
            && Loaded(s, c, ref, desc).blobs == s.blobs + c.blobs
  {
    hide BuildLocalTag;
  }

  // An archive announces one reference or none, and its origin is explicit.
  lemma AnnouncedOnly(lib: Library, c: Contents)
    ensures forall ref, desc :: Announces(lib, c, ref, desc) <==> Announced(lib, c) == Ok((ref, desc))
    ensures Announced(lib, c).Ok? ==>
              Announced(lib, c).value.0.remote != "" || Announced(lib, c).value.0.built
  {
    forall ref, desc ensures Announces(lib, c, ref, desc) <==> Announced(lib, c) == Ok((ref, desc)) {
      AnnouncedExactly(lib, c, ref, desc);
    }
  }

  lemma AnnouncedNeverNil(lib: Library, c: Contents)
    ensures Announced(lib, c) != Err(NilVersion)
  {
  }

  lemma ExistsNeverNil(s: Store, lib: Library, ref: Reference)
    ensures Exists(s, lib, ref) != Err(NilVersion)
  {
    hide SearchTags;
  }

  // ---------------------------------------------------------------------
  // Steps of the methods

  lemma ThreePushes(s: Store, a: Artifact)
    requires a.layers != []
    ensures PushedAll(s, StorePushes(a))
            == Pushed(PushedAll(Pushed(Pushed(s, a.layers[0]), a.config), a.layers[1..]), ManifestLayer(a))
  {
    var first, rest, last := [a.layers[0], a.config], a.layers[1..], [ManifestLayer(a)];
    PushedAllAppend(s, first + rest, last);
    PushedAllAppend(s, first, rest);
    assert first[..1] == [a.layers[0]] && [a.layers[0]][..0] == [];
    assert PushedAll(s, [a.layers[0]]) == Pushed(s, a.layers[0]);
    assert PushedAll(s, first) == Pushed(Pushed(s, a.layers[0]), a.config);
    OnePush(PushedAll(s, first + rest), ManifestLayer(a));
  }

  lemma OnePush(s: Store, layer: Layer)
    ensures PushedAll(s, [layer]) == Pushed(s, layer)
  {
    assert [layer][..0] == [];
  }

  lemma RootStored(s: Store, a: Artifact)
    requires a.layers != []
    ensures Root(a).digest in PushedAll(s, StorePushes(a)).blobs
  {
    ThreePushes(s, a);
  }

  lemma RootPushed(s: Store, pushes: seq<Layer>, root: Descriptor)
    requires Valid(s) && Publishable(pushes, root)
    ensures root.digest in PushedAll(s, pushes).blobs
  {
    PushAllKeeps(s, pushes);
    assert root.digest in Closure(root);
  }

  lemma PlatformsStep(s: Store, ref: Reference, anns: Annotations, createdAt: string, pbs: seq<PlatformBinary>, i: nat)
    requires ref.version.Some? && i < |pbs|
    ensures var a := PlatformArtifact(ref, anns, createdAt, pbs[i]);
      && PushedAll(s, PlatformPushes(ref, anns, createdAt, pbs[..i + 1]))
         == PushedAll(PushedAll(s, PlatformPushes(ref, anns, createdAt, pbs[..i])), StorePushes(a))
      && PlatformEntries(ref, anns, createdAt, pbs[..i + 1])
         == PlatformEntries(ref, anns, createdAt, pbs[..i]) + [Root(a).(platform := pbs[i].platform)]
  {
    var a := PlatformArtifact(ref, anns, createdAt, pbs[i]);
    assert pbs[..i + 1][..i] == pbs[..i];
    hide PlatformArtifact, StorePushes;
    PushedAllAppend(s, PlatformPushes(ref, anns, createdAt, pbs[..i]), StorePushes(a));
  }

  lemma NoPlatformsYet(s: Store, ref: Reference, anns: Annotations, createdAt: string)
    requires ref.version.Some?
    ensures PushedAll(s, PlatformPushes(ref, anns, createdAt, [])) == s
            && PlatformEntries(ref, anns, createdAt, []) == []
  {
  }

  // The index pushed last can be tagged, and tagging it publishes the artifact.
  lemma MultiStored(s: Store, ref: Reference, anns: Annotations, createdAt: string, pbs: seq<PlatformBinary>,
                    tag: string)
    requires Valid(s) && ref.version.Some?
    ensures var root := MultiRoot(ref, anns, createdAt, pbs);
      var pushes := MultiPushes(ref, anns, createdAt, pbs);
      && root == DescriptorOf(IndexLayer(PlatformEntries(ref, anns, createdAt, pbs), anns)).(annotations := anns)
      && root.digest in PushedAll(s, pushes).blobs
      && Tagged(PushedAll(s, pushes), root, tag) == Published(s, pushes, root, tag)
      && Valid(Published(s, pushes, root, tag))
  {
    MultiPublishable(ref, anns, createdAt, pbs);
    PublishKeeps(s, MultiPushes(ref, anns, createdAt, pbs), MultiRoot(ref, anns, createdAt, pbs), tag);
    RootPushed(s, MultiPushes(ref, anns, createdAt, pbs), MultiRoot(ref, anns, createdAt, pbs));
    hide Valid, MultiPushes, Publishable;
  }

  lemma MultiStep(s: Store, ref: Reference, anns: Annotations, createdAt: string, pbs: seq<PlatformBinary>)
    requires ref.version.Some?
    ensures PushedAll(s, MultiPushes(ref, anns, createdAt, pbs))
            == Pushed(PushedAll(s, PlatformPushes(ref, anns, createdAt, pbs)),
                      IndexLayer(PlatformEntries(ref, anns, createdAt, pbs), anns))
  {
    var before := PlatformPushes(ref, anns, createdAt, pbs);
    var x := IndexLayer(PlatformEntries(ref, anns, createdAt, pbs), anns);
    PushedAllAppend(s, before, [x]);
    OnePush(PushedAll(s, before), x);
  }

  function DigestSet(ds: seq<Descriptor>): (r: set<Digest>)
    ensures r == Digests(ds)
  {
    set d | d in ds :: d.digest
  }

  ghost function FoundUpTo(blobs: Blobs, ms: seq<Descriptor>, n: nat): set<Digest>
    requires n <= |ms|
  {
    if n == 0 then {} else FoundUpTo(blobs, ms, n - 1) + Found(blobs, ms[n - 1])
  }

  lemma {:induction false} InFoundUpTo(blobs: Blobs, ms: seq<Descriptor>, n: nat)
    requires n <= |ms|
    ensures forall d :: d in FoundUpTo(blobs, ms, n) <==> exists i :: 0 <= i < n && d in Found(blobs, ms[i])
  {
    hide Found;
    if n > 0 { InFoundUpTo(blobs, ms, n - 1); }
  }

  lemma FoundUpToAll(blobs: Blobs, desc: Descriptor)
    requires desc.digest in blobs && desc.digest.content.Index? && IsImageIndex(desc)
    ensures var ms := desc.digest.content.manifests;
      Found(blobs, desc) == {desc.digest} + FoundUpTo(blobs, ms, |ms|)
  {
    InFoundUpTo(blobs, desc.digest.content.manifests, |desc.digest.content.manifests|);
  }

  ghost function ExportedUpTo(ms: seq<Descriptor>, n: nat): set<Digest>
    requires n <= |ms|
  {
    if n == 0 then {} else ExportedUpTo(ms, n - 1) + Exported(ms[n - 1])
  }

  lemma {:induction false} InExportedUpTo(ms: seq<Descriptor>, n: nat)
    requires n <= |ms|
    ensures forall d :: d in ExportedUpTo(ms, n) <==> exists i :: 0 <= i < n && d in Exported(ms[i])
  {
    hide Exported;
    if n > 0 { InExportedUpTo(ms, n - 1); }
  }

  // What the export walk visits, and that it meets the content it expects.
  lemma ExportStart(blobs: Blobs, desc: Descriptor)
    requires ContentAddressed(blobs) && Complete(blobs, desc) && Proper(desc)
    ensures desc.digest in blobs && blobs[desc.digest] == desc.digest.content
    ensures var data := desc.digest.content;
      if IsImageIndex(desc) then
        && data.Index? && ExportedUpTo(data.manifests, 0) == {}
        && Exported(desc) == {desc.digest} + ExportedUpTo(data.manifests, |data.manifests|)
      else if desc.mediaType == MediaTypeManifest then
        data.Manifest? && Exported(desc) == {desc.digest} + {data.config.digest} + DigestSet(data.layers)
      else Exported(desc) == {desc.digest}
  {
    assert desc.digest in Closure(desc);
    hide Closure;
    if IsImageIndex(desc) {
      InExportedUpTo(desc.digest.content.manifests, |desc.digest.content.manifests|);
    }
  }

  lemma ExportChild(blobs: Blobs, desc: Descriptor, i: nat)
    requires Complete(blobs, desc) && Proper(desc) && IsImageIndex(desc)
    requires desc.digest.content.Index? && i < |desc.digest.content.manifests|
    ensures var ms := desc.digest.content.manifests;
      && Complete(blobs, ms[i]) && Proper(ms[i])
      && ExportedUpTo(ms, i + 1) == ExportedUpTo(ms, i) + Exported(ms[i])
  {
    ClosureTransitive(desc, i);
    hide Closure, Exported;
  }

  ghost function MarksOf(s: Store, tags: set<string>): set<Digest> {
    set t, d | t in tags && d in Marks(s, t) :: d
  }

  lemma MarksOneMore(s: Store, todo: set<string>, tag: string)
    requires todo <= s.tags.Keys && tag in todo
    ensures MarksOf(s, s.tags.Keys - (todo - {tag}))
            == MarksOf(s, s.tags.Keys - todo) + {s.tags[tag].digest} + Found(s.blobs, s.tags[tag])
  {
    hide Found;
    assert Marks(s, tag) == {s.tags[tag].digest} + Found(s.blobs, s.tags[tag]);
    hide Marks;
    assert s.tags.Keys - (todo - {tag}) == (s.tags.Keys - todo) + {tag};
  }

  lemma MarksOfAll(s: Store, todo: set<string>)
    requires todo == {}
    ensures MarksOf(s, s.tags.Keys - todo) == Referenced(s)
  {
    hide Marks;
    assert s.tags.Keys - todo == s.tags.Keys;
  }

  lemma ValidAddressed(s: Store)
    requires Valid(s)
    ensures ContentAddressed(s.blobs)
  {
  }

  lemma PrunedIs(s: Store, s': Store, refs: set<Digest>)
    requires Valid(s) && refs == Referenced(s) && s'.tags == s.tags
    requires s'.blobs == Kept(s.blobs, refs) && s'.listed == Kept(s.listed, refs)
    ensures s' == Pruned(s) && Valid(s')
  {
    PruneExact(s);
    PrunedTags(s);
    hide Referenced, Valid;
  }

  lemma KeptAll<V>(m: map<Digest, V>, refs: set<Digest>)
    ensures m.Keys - refs == {} ==> Kept(m, refs) == m
  {
    if m.Keys - refs == {} {
      forall d | d in m ensures d in refs { assert d !in m.Keys - refs; }
      assert Kept(m, refs).Keys == m.Keys;
    }
  }

  lemma MarksOfNone(s: Store)
    ensures MarksOf(s, s.tags.Keys - s.tags.Keys) == {}
  {
    assert s.tags.Keys - s.tags.Keys == {};
  }

  lemma TagComplete(s: Store, tag: string)
    requires Valid(s) && tag in s.tags
    ensures ContentAddressed(s.blobs) && Complete(s.blobs, s.tags[tag]) && Proper(s.tags[tag])
    ensures Exported(s.tags[tag]) <= s.blobs.Keys
  {
    ExportIsClosure(s.tags[tag]);
  }

  lemma RestrictMore(blobs: Blobs, keys: set<Digest>, d: Digest)
    requires d in blobs
    ensures Kept(blobs, keys + {d}) == Kept(blobs, keys)[d := blobs[d]]
  {
  }

  lemma SavedTag(s: Store, info: ArtifactInfo)
    requires BuildLocalTag(info.ref) in s.tags
    ensures Saved(s, info).Ok?
  {
  }

  // What Save wrote is the archive of the resolved artifact.
  lemma SavedIs(s: Store, info: ArtifactInfo, c: Contents)
    requires BuildLocalTag(info.ref) in s.tags
    requires c == Contents(Some(LayoutVersion), None, Kept(s.blobs, Exported(s.tags[BuildLocalTag(info.ref)])))
    ensures var index := IndexFile([s.tags[BuildLocalTag(info.ref)].(annotations := info.annotations, platform := "")]);
      Saved(s, info) == Ok(ReadEntry(c, index))
  {
  }

  lemma RestrictNothing(s: Store, more: Blobs)
    ensures Kept(more, {}) == map[] && s.blobs + Kept(more, {}) == s.blobs
  {
  }

  lemma RestrictOneMore(s: Store, more: Blobs, done: set<Digest>, d: Digest)
    requires d in more && more[d] == d.content && ContentAddressed(s.blobs) && ContentAddressed(Kept(more, done))
    ensures ContentAddressed(Kept(more, done + {d}))
    ensures var now := s.blobs + Kept(more, done);
      s.blobs + Kept(more, done + {d}) == if d in now then now else now[d := more[d]]
  {
    var now := s.blobs + Kept(more, done);
    assert d in now ==> now[d] == d.content;
  }
}
