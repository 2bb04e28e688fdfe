/** Content of the OCI layout the local catalog keeps: descriptors, manifests,
    image indexes, and what they reach. A digest is modelled by the content it
    is computed from, so equal digests mean equal content and no content can
    contain its own digest. */
module OciContent {
  type Annotations = map<string, string>

  const MediaTypeManifest := "application/vnd.oci.image.manifest.v1+json"
  const MediaTypeIndex := "application/vnd.oci.image.index.v1+json"

  datatype Digest = Digest(content: Content)

  datatype Descriptor = Descriptor(mediaType: string, digest: Digest, annotations: Annotations, platform: string)

  // A blob, by what its bytes decode to. Config is the JSON an artifact's
  // identity is recorded in; platform "" is omitted.
  datatype Content =
    | Raw(data: seq<int>)
    | Config(kind: string, name: string, version: string, platform: string, createdAt: string,
             configAnnotations: Annotations)
    | Manifest(config: Descriptor, layers: seq<Descriptor>, annotations: Annotations)
    | Index(manifests: seq<Descriptor>, annotations: Annotations)

  datatype Layer = Layer(mediaType: string, data: Content)

  type Blobs = map<Digest, Content>

  predicate IsImageIndex(desc: Descriptor) {
    desc.mediaType == MediaTypeIndex
  }

  function DescriptorOf(layer: Layer): Descriptor {
    Descriptor(layer.mediaType, Digest(layer.data), map[], "")
  }

  function Descriptors(layers: seq<Layer>): (ds: seq<Descriptor>)
    ensures |ds| == |layers|
    ensures forall i | 0 <= i < |ds| :: ds[i] == DescriptorOf(layers[i])
  {
    if layers == [] then [] else [DescriptorOf(layers[0])] + Descriptors(layers[1..])
  }

  ghost function Digests(ds: seq<Descriptor>): set<Digest> {
    set i | 0 <= i < |ds| :: ds[i].digest
  }

  // Config and layers, of content that decodes as a manifest with any.
  ghost function Parts(content: Content): set<Digest> {
    if content.Manifest? then {content.config.digest} + Digests(content.layers) else {}
  }

  function Children(content: Content): seq<Descriptor> {
    if content.Index? then content.manifests else []
  }

  // Everything a descriptor reaches: an index its manifests, a manifest its
  // config and layers.
  ghost function Closure(desc: Descriptor): set<Digest>
    decreases desc
  {
    {desc.digest} +
    match desc.digest.content
    case Index(ms, _) => if IsImageIndex(desc) then set i, d | 0 <= i < |ms| && d in Closure(ms[i]) :: d else {}
    case Manifest(config, layers, _) => if IsImageIndex(desc) then {} else {config.digest} + Digests(layers)
    case _ => {}
  }

  // The part of the closure found by following only the blobs that are there.
  ghost function Found(blobs: Blobs, desc: Descriptor): set<Digest>
    decreases desc
  {
    if desc.digest !in blobs then {}
    else
      {desc.digest} +
      match desc.digest.content
      case Index(ms, _) => if IsImageIndex(desc) then set i, d | 0 <= i < |ms| && d in Found(blobs, ms[i]) :: d else {}
      case Manifest(config, layers, _) => if IsImageIndex(desc) then {} else {config.digest} + Digests(layers)
      case _ => {}
  }

  ghost predicate Complete(blobs: Blobs, desc: Descriptor) {
    Closure(desc) <= blobs.Keys
  }

  ghost predicate ContentAddressed(blobs: Blobs) {
    forall d | d in blobs :: blobs[d] == d.content
  }

  // A descriptor whose media type says what its content is, all the way down.
  predicate Proper(desc: Descriptor)
    decreases desc
  {
    match desc.digest.content
    case Index(ms, _) => IsImageIndex(desc) && forall i | 0 <= i < |ms| :: Proper(ms[i])
    case Manifest(_, _, _) => desc.mediaType == MediaTypeManifest
    case _ => desc.mediaType != MediaTypeManifest && !IsImageIndex(desc)
  }

  // Content that references nothing.
  predicate LeafContent(content: Content) {
    !content.Manifest? && !content.Index?
  }

  // What is stored as a config or layer below desc is not itself a manifest or
  // an index.
  predicate LeafParts(desc: Descriptor)
    decreases desc
  {
    match desc.digest.content
    case Index(ms, _) => forall i | 0 <= i < |ms| :: LeafParts(ms[i])
    case Manifest(config, layers, _) =>
      LeafContent(config.digest.content) && forall i | 0 <= i < |layers| :: LeafContent(layers[i].digest.content)
    case _ => true
  }

  // Of all descriptors of one digest a proper one reaches the most.
  lemma {:induction false} ProperReachesMost(desc: Descriptor, proper: Descriptor)
    requires Proper(proper) && desc.digest == proper.digest
    ensures Closure(desc) <= Closure(proper)
  {
  }

  // Whatever lies in the closure of a proper descriptor with leaf parts has its
  // own closure there.
  lemma {:induction false} ClosureClosed(desc: Descriptor, d: Digest, at: Descriptor)
    requires Proper(desc) && LeafParts(desc) && d in Closure(desc) && at.digest == d
    ensures Closure(at) <= Closure(desc)
    decreases desc
  {
    if d == desc.digest {
      ProperReachesMost(at, desc);
    } else if desc.digest.content.Index? {
      var ms := desc.digest.content.manifests;
      var i :| 0 <= i < |ms| && d in Closure(ms[i]);
      ClosureClosed(ms[i], d, at);
      ClosureTransitive(desc, i);
    } else {
      LeafReachesItself(at);
    }
  }

  lemma LeafReachesItself(at: Descriptor)
    ensures LeafContent(at.digest.content) ==> Closure(at) == {at.digest}
  {
  }

  lemma {:induction false} FoundIsClosure(blobs: Blobs, desc: Descriptor)
    requires Complete(blobs, desc)
    ensures Found(blobs, desc) == Closure(desc)
    decreases desc
  {
    if desc.digest.content.Index? && IsImageIndex(desc) {
      var ms := desc.digest.content.manifests;
      forall i | 0 <= i < |ms| ensures Found(blobs, ms[i]) == Closure(ms[i]) {
        forall d | d in Closure(ms[i]) ensures d in blobs { assert d in Closure(desc); }
        FoundIsClosure(blobs, ms[i]);
      }
      assert Found(blobs, desc) == Closure(desc);
    }
  }

  lemma {:induction false} FoundBelowClosure(blobs: Blobs, desc: Descriptor)
    ensures Found(blobs, desc) <= Closure(desc)
    decreases desc
  {
    if desc.digest.content.Index? && IsImageIndex(desc) {
      var ms := desc.digest.content.manifests;
      forall i | 0 <= i < |ms| ensures Found(blobs, ms[i]) <= Closure(ms[i]) {
        FoundBelowClosure(blobs, ms[i]);
      }
      assert Found(blobs, desc) <= Closure(desc);
    }
  }

  // What the export walk visits: it takes only the manifest media type for a
  // manifest, where marking takes every non-index.
  ghost function Exported(desc: Descriptor): set<Digest>
    decreases desc
  {
    {desc.digest} +
    match desc.digest.content
    case Index(ms, _) => if IsImageIndex(desc) then set i, d | 0 <= i < |ms| && d in Exported(ms[i]) :: d else {}
    case Manifest(config, layers, _) =>
      if desc.mediaType == MediaTypeManifest then {config.digest} + Digests(layers) else {}
    case _ => {}
  }

  // The two walks agree on properly typed descriptors.
  lemma {:induction false} ExportIsClosure(desc: Descriptor)
    requires Proper(desc)
    ensures Exported(desc) == Closure(desc)
    decreases desc
  {
    if desc.digest.content.Index? {
      var ms := desc.digest.content.manifests;
      forall i | 0 <= i < |ms| ensures Exported(ms[i]) == Closure(ms[i]) { ExportIsClosure(ms[i]); }
      assert Exported(desc) == Closure(desc);
    }
  }

  // Following one's way down from a descriptor never leaves its closure.
  lemma ClosureTransitive(desc: Descriptor, i: nat)
    requires desc.digest.content.Index? && IsImageIndex(desc) && i < |desc.digest.content.manifests|
    ensures Closure(desc.digest.content.manifests[i]) <= Closure(desc)
  {
    forall d | d in Closure(desc.digest.content.manifests[i]) ensures d in Closure(desc) {
    }
  }

  lemma ClosureOfManifest(desc: Descriptor)
    requires desc.digest.content.Manifest? && desc.mediaType == MediaTypeManifest
    ensures Closure(desc) == {desc.digest} + Parts(desc.digest.content) && Proper(desc)
  {
  }

  // Annotations and platform do not matter to what is reached.
  lemma ClosureOfDigest(desc: Descriptor, annotations: Annotations, platform: string)
    ensures Closure(desc.(annotations := annotations, platform := platform)) == Closure(desc)
    ensures Proper(desc.(annotations := annotations, platform := platform)) == Proper(desc)
  {
  }
}
