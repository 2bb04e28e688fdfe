/** The state of a local catalog (local.go): the OCI store's blobs, its tags,
    and the manifests listed in its index without one. */
module CatalogStore {
  import opened OciContent

  // listed: the descriptors index.json keeps by digest.
  datatype Store = Store(blobs: Blobs, tags: map<string, Descriptor>, listed: map<Digest, Descriptor>)

  function Empty(): Store {
    Store(map[], map[], map[])
  }

  predicate IsListedType(mediaType: string) {
    mediaType == MediaTypeManifest || mediaType == MediaTypeIndex
  }

  // store.Push: a blob already there is left alone; a manifest is listed.
  function Pushed(s: Store, layer: Layer): Store {
    var desc := DescriptorOf(layer);
    if desc.digest in s.blobs then s
    else s.(blobs := s.blobs[desc.digest := layer.data],
            listed := if IsListedType(layer.mediaType) then s.listed[desc.digest := desc] else s.listed)
  }

  function PushedAll(s: Store, layers: seq<Layer>): Store {
    if layers == [] then s else Pushed(PushedAll(s, layers[..|layers| - 1]), layers[|layers| - 1])
  }

  // store.Tag also lists the descriptor by its digest.
  function Tagged(s: Store, desc: Descriptor, tag: string): Store {
    s.(tags := s.tags[tag := desc], listed := s.listed[desc.digest := desc])
  }

  // store.Untag: the descriptor stays listed, its blobs stay stored.
  function Untagged(s: Store, tag: string): Store {
    s.(tags := s.tags - {tag})
  }

  // Step 1 of Prune.
  ghost function Marks(s: Store, tag: string): set<Digest> {
    if tag in s.tags then {s.tags[tag].digest} + Found(s.blobs, s.tags[tag]) else {}
  }

  ghost function Referenced(s: Store): set<Digest> {
    set t, d | t in s.tags && d in Marks(s, t) :: d
  }

  ghost function Pruned(s: Store): Store {
    var refs := Referenced(s);
    Store(Kept(s.blobs, refs),
          map t | t in s.tags && s.tags[t].digest in refs :: s.tags[t],
          Kept(s.listed, refs))
  }

  function Kept<V>(m: map<Digest, V>, keys: set<Digest>): (r: map<Digest, V>)
    ensures forall d :: d in r <==> d in m && d in keys
    ensures forall d | d in r :: r[d] == m[d]
  {
    map d | d in m && d in keys :: m[d]
  }

  // ---------------------------------------------------------------------
  // The invariant

  // Everything a tag reaches is stored, under its own digest.
  ghost predicate Valid(s: Store) {
    && ContentAddressed(s.blobs)
    && (forall t | t in s.tags :: Complete(s.blobs, s.tags[t]) && Proper(s.tags[t]))
    && forall d | d in s.listed :: d in s.blobs && s.listed[d].digest == d
  }

  lemma PushKeeps(s: Store, layer: Layer)
    requires Valid(s)
    ensures Valid(Pushed(s, layer)) && Pushed(s, layer).tags == s.tags
    ensures Pushed(s, layer).blobs.Keys == s.blobs.Keys + {Digest(layer.data)}
  {
    var s' := Pushed(s, layer);
    forall t | t in s'.tags ensures Complete(s'.blobs, s'.tags[t]) { assert Complete(s.blobs, s.tags[t]); }
  }

  ghost function DataDigests(layers: seq<Layer>): set<Digest> {
    set i | 0 <= i < |layers| :: Digest(layers[i].data)
  }

  lemma {:induction false} PushAllKeeps(s: Store, layers: seq<Layer>)
    requires Valid(s)
    ensures Valid(PushedAll(s, layers)) && PushedAll(s, layers).tags == s.tags
    ensures PushedAll(s, layers).blobs.Keys == s.blobs.Keys + DataDigests(layers)
  {
    hide Valid, DataDigests;
    if layers == [] {
      NoDigests();
    } else {
      var init, last := layers[..|layers| - 1], layers[|layers| - 1];
      PushAllKeeps(s, init);
      PushKeeps(PushedAll(s, init), last);
      DataDigestsAppend(init, last);
      assert layers == init + [last];
    }
  }

  lemma NoDigests()
    ensures DataDigests([]) == {}
  {
  }

  lemma DataDigestsAppend(layers: seq<Layer>, last: Layer)
    ensures DataDigests(layers + [last]) == DataDigests(layers) + {Digest(last.data)}
  {
    var all := layers + [last];
    forall d ensures d in DataDigests(all) <==> d in DataDigests(layers) + {Digest(last.data)} {
      if i :| 0 <= i < |layers| && Digest(layers[i].data) == d { assert all[i] == layers[i]; }
      assert all[|layers|] == last;
    }
  }

  lemma DataDigestsConcat(a: seq<Layer>, b: seq<Layer>)
    ensures DataDigests(a + b) == DataDigests(a) + DataDigests(b)
  {
    var all := a + b;
    forall d ensures d in DataDigests(all) <==> d in DataDigests(a) + DataDigests(b) {
      if i :| 0 <= i < |a| && Digest(a[i].data) == d { assert all[i] == a[i]; }
      if i :| 0 <= i < |b| && Digest(b[i].data) == d { assert all[|a| + i] == b[i]; }
    }
  }

  lemma DescriptorDigests(layers: seq<Layer>)
    ensures Digests(Descriptors(layers)) == DataDigests(layers)
  {
    forall d ensures d in Digests(Descriptors(layers)) <==> d in DataDigests(layers) {
      if i :| 0 <= i < |layers| && Digest(layers[i].data) == d {
        assert Descriptors(layers)[i].digest == d;
      }
    }
  }

  lemma {:induction false} PushedAllAppend(s: Store, a: seq<Layer>, b: seq<Layer>)
    ensures PushedAll(s, a + b) == PushedAll(PushedAll(s, a), b)
    decreases |b|
  {
    if b == [] {
      assert a + b == a;
    } else {
      assert (a + b)[..|a + b| - 1] == a + b[..|b| - 1];
      PushedAllAppend(s, a, b[..|b| - 1]);
    }
  }

  lemma TagKeeps(s: Store, desc: Descriptor, tag: string)
    requires Valid(s) && Complete(s.blobs, desc) && Proper(desc)
    ensures Valid(Tagged(s, desc, tag))
  {
    assert desc.digest in Closure(desc);
  }

  lemma UntagKeeps(s: Store, tag: string)
    requires Valid(s)
    ensures Valid(Untagged(s, tag))
  {
  }

  ghost predicate Reached(s: Store, d: Digest) {
    exists t :: t in s.tags && d in Closure(s.tags[t])
  }

  lemma MarksAreClosure(s: Store, t: string)
    requires Valid(s) && t in s.tags
    ensures Marks(s, t) == Closure(s.tags[t]) && Marks(s, t) <= s.blobs.Keys && s.tags[t].digest in Marks(s, t)
  {
    FoundIsClosure(s.blobs, s.tags[t]);
  }

  lemma ReferencedIsReached(s: Store)
    requires Valid(s)
    ensures forall d :: d in Referenced(s) <==> Reached(s, d)
    ensures Referenced(s) <= s.blobs.Keys
    ensures forall t | t in s.tags :: s.tags[t].digest in Referenced(s)
  {
    forall t | t in s.tags
      ensures Marks(s, t) == Closure(s.tags[t]) && Marks(s, t) <= s.blobs.Keys && s.tags[t].digest in Marks(s, t)
    {
      MarksAreClosure(s, t);
    }
    hide Valid, Marks, Closure;
    forall d ensures d in Referenced(s) <==> Reached(s, d) {
      if t :| t in s.tags && d in Closure(s.tags[t]) { assert d in Marks(s, t); }
    }
  }

  lemma PrunedShape(s: Store)
    requires Referenced(s) <= s.blobs.Keys && forall t | t in s.tags :: s.tags[t].digest in Referenced(s)
    ensures Pruned(s).tags == s.tags && Pruned(s).blobs.Keys == Referenced(s)
    ensures forall d | d in Pruned(s).blobs :: d in s.blobs && Pruned(s).blobs[d] == s.blobs[d]
    ensures forall d :: d in Pruned(s).listed <==> d in s.listed && d in Pruned(s).blobs
    ensures forall d | d in Pruned(s).listed :: Pruned(s).listed[d] == s.listed[d]
  {
    hide Referenced;
  }

  // What Prune does with one digest.
  lemma PrunedAt(s: Store, d: Digest)
    requires Valid(s)
    ensures d in Pruned(s).blobs <==> Reached(s, d)
    ensures d in Pruned(s).listed <==> d in s.listed && Reached(s, d)
    ensures d in Pruned(s).blobs ==> d in s.blobs && Pruned(s).blobs[d] == s.blobs[d]
    ensures d in Pruned(s).listed ==> Pruned(s).listed[d] == s.listed[d]
  {
    ReferencedAt(s, d);
    KeptAt(s.blobs, Referenced(s), d);
    KeptAt(s.listed, Referenced(s), d);
    PrunedFields(s);
    hide *;
  }

  lemma ReferencedAt(s: Store, d: Digest)
    requires Valid(s)
    ensures (d in Referenced(s) <==> Reached(s, d)) && (Reached(s, d) ==> d in s.blobs)
  {
    ReferencedIsReached(s);
    hide *;
    assert d in Referenced(s) ==> d in s.blobs.Keys;
  }

  lemma KeptAt<V>(m: map<Digest, V>, keys: set<Digest>, d: Digest)
    ensures d in Kept(m, keys) <==> d in m && d in keys
    ensures d in Kept(m, keys) ==> Kept(m, keys)[d] == m[d]
  {
    hide *;
  }

  lemma PrunedFields(s: Store)
    ensures Pruned(s).blobs == Kept(s.blobs, Referenced(s)) && Pruned(s).listed == Kept(s.listed, Referenced(s))
  {
    hide Referenced, Kept;
  }

  // Prune leaves the tags alone, keeps exactly the blobs some tag reaches, and
  // keeps the store valid.
  lemma PruneExact(s: Store)
    requires Valid(s)
    ensures Valid(Pruned(s)) && Pruned(s).tags == s.tags
    ensures forall d :: d in Pruned(s).blobs <==> Reached(s, d)
    ensures forall d | d in Pruned(s).blobs :: d in s.blobs && Pruned(s).blobs[d] == s.blobs[d]
    ensures forall d :: d in Pruned(s).listed <==> d in s.listed && d in Pruned(s).blobs
    ensures forall d | d in Pruned(s).listed :: d in s.listed && Pruned(s).listed[d] == s.listed[d]
  {
    hide *;
    PrunedValid(s);
    PrunedTagsKept(s);
    forall d ensures d in Pruned(s).blobs <==> Reached(s, d) { PrunedAt(s, d); }
    forall d | d in Pruned(s).blobs ensures d in s.blobs && Pruned(s).blobs[d] == s.blobs[d] { PrunedAt(s, d); }
    forall d ensures d in Pruned(s).listed <==> d in s.listed && d in Pruned(s).blobs { PrunedAt(s, d); }
    forall d | d in Pruned(s).listed ensures d in s.listed && Pruned(s).listed[d] == s.listed[d] { PrunedAt(s, d); }
  }

  lemma PrunedTagsKept(s: Store)
    requires Valid(s)
    ensures Pruned(s).tags == s.tags
  {
    ReferencedIsReached(s);
    PrunedShape(s);
    hide *;
  }

  lemma PrunedValid(s: Store)
    requires Valid(s)
    ensures Valid(Pruned(s))
  {
    ReferencedIsReached(s);
    PrunedShape(s);
    hide *;
    var s' := Pruned(s);
    AllTagsComplete(s, s', Referenced(s));
    SubStoreValid(s, s');
  }

  lemma SubStoreValid(s: Store, s': Store)
    requires Valid(s)
    requires s'.tags == s.tags && forall t | t in s.tags :: Complete(s'.blobs, s.tags[t])
    requires forall d | d in s'.blobs :: d in s.blobs && s'.blobs[d] == s.blobs[d]
    requires forall d | d in s'.listed :: d in s.listed && d in s'.blobs && s'.listed[d] == s.listed[d]
    ensures Valid(s')
  {
    hide Complete, Proper;
  }

  lemma AllTagsComplete(s: Store, s': Store, refs: set<Digest>)
    requires s'.blobs.Keys == refs && forall d :: d in refs <==> Reached(s, d)
    ensures forall t | t in s.tags :: Complete(s'.blobs, s.tags[t])
  {
    hide Closure;
    forall t | t in s.tags ensures Complete(s'.blobs, s.tags[t]) {
      forall d | d in Closure(s.tags[t]) ensures d in s'.blobs.Keys { assert Reached(s, d); }
    }
  }

  lemma PruneTwice(s: Store)
    requires Valid(s)
    ensures Pruned(Pruned(s)) == Pruned(s)
  {
    PruneExact(s);
    PruneExact(Pruned(s));
    SameReached(s, Pruned(s));
    hide *;
    var a, b := Pruned(s), Pruned(Pruned(s));
    SameMaps(a.blobs, b.blobs);
    SameMaps(a.listed, b.listed);
  }

  lemma SameReached(s: Store, s': Store)
    requires s'.tags == s.tags
    ensures forall d :: Reached(s', d) <==> Reached(s, d)
  {
    hide Closure;
  }

  lemma SameMaps<K, V>(a: map<K, V>, b: map<K, V>)
    requires forall k :: k in b <==> k in a
    requires forall k | k in b :: b[k] == a[k]
    ensures a == b
  {
  }

  // ---------------------------------------------------------------------
  // Publishing: push everything an artifact needs, then tag its root

  // Everything root reaches is among the pushes.
  ghost predicate Covered(pushes: seq<Layer>, root: Descriptor) {
    Proper(root) && Closure(root) <= DataDigests(pushes)
  }

  // The root is the last thing pushed, after everything else it reaches.
  ghost predicate Publishable(pushes: seq<Layer>, root: Descriptor) {
    && Covered(pushes, root) && pushes != [] && DescriptorOf(pushes[|pushes| - 1]).digest == root.digest
    && Closure(root) - {root.digest} <= DataDigests(pushes[..|pushes| - 1])
  }

  function Published(s: Store, pushes: seq<Layer>, root: Descriptor, tag: string): Store {
    Tagged(PushedAll(s, pushes), root, tag)
  }

  lemma PublishKeeps(s: Store, pushes: seq<Layer>, root: Descriptor, tag: string)
    requires Valid(s) && Publishable(pushes, root)
    ensures Valid(Published(s, pushes, root, tag))
    ensures Published(s, pushes, root, tag).tags == s.tags[tag := root]
    ensures Published(s, pushes, root, tag).blobs.Keys == s.blobs.Keys + DataDigests(pushes)
  {
    PushAllKeeps(s, pushes);
    TagKeeps(PushedAll(s, pushes), root, tag);
  }

  // s' still holds what s holds under the tag.
  ghost predicate HeldAlike(s: Store, s': Store, tag: string) {
    && tag in s.tags && tag in s'.tags && s'.tags[tag] == s.tags[tag]
    && forall d | d in Closure(s.tags[tag]) :: d in s.blobs && d in s'.blobs && s'.blobs[d] == s.blobs[d]
  }

  // Content tagged before is still there, unchanged, after a publication under
  // another tag ...
  lemma OthersKept(s: Store, pushes: seq<Layer>, root: Descriptor, tag: string, other: string)
    requires Valid(s) && Publishable(pushes, root) && other in s.tags && other != tag
    ensures HeldAlike(s, Published(s, pushes, root, tag), other)
  {
    PublishKeeps(s, pushes, root, tag);
    var s' := Published(s, pushes, root, tag);
    hide Published, Publishable, Closure, Proper, DataDigests;
    assert Complete(s.blobs, s.tags[other]);
    forall d | d in Closure(s.tags[other]) ensures d in s.blobs && d in s'.blobs && s'.blobs[d] == s.blobs[d] {
      assert d in s.blobs.Keys && d in s'.blobs.Keys;
    }
  }

  // ... after the removal of another tag ...
  lemma OthersKeptByDelete(s: Store, tag: string, other: string)
    requires Valid(s) && other in s.tags && other != tag
    ensures HeldAlike(s, Untagged(s, tag), other)
  {
    assert Complete(s.blobs, s.tags[other]);
  }

  // ... and after a Prune.
  lemma TaggedKeptByPrune(s: Store, tag: string)
    requires Valid(s) && tag in s.tags
    ensures HeldAlike(s, Pruned(s), tag)
  {
    hide *;
    PrunedTags(s);
    var s' := Pruned(s);
    forall d | d in Closure(s.tags[tag]) ensures d in s.blobs && d in s'.blobs && s'.blobs[d] == s.blobs[d] {
      PrunedKeeps(s, tag, d);
    }
    HeldAlikeOf(s, s', tag);
  }

  lemma HeldAlikeOf(s: Store, s': Store, tag: string)
    requires tag in s.tags && s'.tags == s.tags
    requires forall d | d in Closure(s.tags[tag]) :: d in s.blobs && d in s'.blobs && s'.blobs[d] == s.blobs[d]
    ensures HeldAlike(s, s', tag)
  {
  }

  lemma PrunedKeeps(s: Store, tag: string, d: Digest)
    requires Valid(s) && tag in s.tags && d in Closure(s.tags[tag])
    ensures d in s.blobs && d in Pruned(s).blobs && Pruned(s).blobs[d] == s.blobs[d]
  {
    MarksAreClosure(s, tag);
    hide Marks, Closure, Valid;
    assert d in Referenced(s);
  }

  lemma PrunedTags(s: Store)
    requires Valid(s)
    ensures Pruned(s).tags == s.tags
  {
    PruneExact(s);
  }

  // A manifest over pushed layers and a pushed config.
  lemma ManifestPublishable(pushes: seq<Layer>, config: Layer, layers: seq<Layer>, annotations: Annotations,
                            rootAnnotations: Annotations)
    requires Digest(config.data) in DataDigests(pushes) && DataDigests(layers) <= DataDigests(pushes)
    ensures var m := Layer(MediaTypeManifest, Manifest(DescriptorOf(config), Descriptors(layers), annotations));
      Publishable(pushes + [m], DescriptorOf(m).(annotations := rootAnnotations))
  {
    var m := Layer(MediaTypeManifest, Manifest(DescriptorOf(config), Descriptors(layers), annotations));
    DataDigestsAppend(pushes, m);
    DescriptorDigests(layers);
    var root := DescriptorOf(m).(annotations := rootAnnotations);
    ClosureOfManifest(root);
    assert (pushes + [m])[..|pushes|] == pushes;
  }

  // An index over manifests that were published before it.
  lemma IndexPublishable(pushes: seq<Layer>, manifests: seq<Descriptor>, annotations: Annotations,
                         rootAnnotations: Annotations)
    requires forall i | 0 <= i < |manifests| :: Covered(pushes, manifests[i])
    ensures var x := Layer(MediaTypeIndex, Index(manifests, annotations));
      Publishable(pushes + [x], DescriptorOf(x).(annotations := rootAnnotations))
  {
    var x := Layer(MediaTypeIndex, Index(manifests, annotations));
    DataDigestsAppend(pushes, x);
    var root := DescriptorOf(x).(annotations := rootAnnotations);
    forall d | d in Closure(root) && d != root.digest ensures d in DataDigests(pushes) {
      var i :| 0 <= i < |manifests| && d in Closure(manifests[i]);
      assert Covered(pushes, manifests[i]);
    }
    forall i | 0 <= i < |manifests| ensures Proper(manifests[i]) { assert Covered(pushes, manifests[i]); }
    assert (pushes + [x])[..|pushes|] == pushes;
  }

  lemma CoveredMore(pushes: seq<Layer>, more: seq<Layer>, root: Descriptor)
    requires Covered(pushes, root)
    ensures Covered(pushes + more, root)
  {
    DataDigestsConcat(pushes, more);
  }
}
