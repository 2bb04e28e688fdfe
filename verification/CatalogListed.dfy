/** The manifests a store lists (local.go), and exactly when pushes and a Prune
    leave every one of them complete. */
module CatalogListed {
  import opened OciContent
  import opened CatalogStore
  import opened CatalogOrder

  // Everything a listed manifest reaches is stored.
  ghost predicate ListedComplete(s: Store) {
    AllComplete(s.blobs.Keys, s.listed)
  }

  ghost predicate AllComplete(have: set<Digest>, listed: map<Digest, Descriptor>) {
    forall d | d in listed :: Closure(listed[d]) <= have
  }

  // ---------------------------------------------------------------------
  // Pushes

  // Pushing x after have lists it.
  predicate Lists(have: set<Digest>, x: Layer) {
    IsListedType(x.mediaType) && Digest(x.data) !in have
  }

  // Everything a push lists is there by then.
  ghost predicate ReadyAfter(have: set<Digest>, pushes: seq<Layer>) {
    forall i | 0 <= i < |pushes| :: Ready(have + DataDigests(pushes[..i]), pushes[i])
  }

  ghost predicate Ready(have: set<Digest>, x: Layer) {
    Lists(have, x) ==> FitsAfter(have, x)
  }

  // Everything the pushes list is there in the end.
  ghost predicate ReadyInTheEnd(have: set<Digest>, pushes: seq<Layer>) {
    forall i | 0 <= i < |pushes| :: CompleteIn(have, pushes, i, have + DataDigests(pushes))
  }

  ghost predicate CompleteIn(have: set<Digest>, pushes: seq<Layer>, i: nat, there: set<Digest>)
    requires i < |pushes|
  {
    Lists(have + DataDigests(pushes[..i]), pushes[i]) ==> Closure(DescriptorOf(pushes[i])) <= there
  }

  // Children first suffices, whatever is stored already.
  lemma InOrderIsReady(have: set<Digest>, pushes: seq<Layer>)
    requires ChildrenFirst(pushes)
    ensures ReadyAfter(have, pushes)
  {
    hide Closure, DataDigests;
    forall i | 0 <= i < |pushes| ensures Ready(have + DataDigests(pushes[..i]), pushes[i]) {
      assert FitsAfter({} + DataDigests(pushes[..i]), pushes[i]);
    }
  }

  lemma ReadyIsInTheEnd(have: set<Digest>, pushes: seq<Layer>)
    requires ReadyAfter(have, pushes)
    ensures ReadyInTheEnd(have, pushes)
  {
    forall i | 0 <= i < |pushes| ensures CompleteIn(have, pushes, i, have + DataDigests(pushes)) {
      assert Ready(have + DataDigests(pushes[..i]), pushes[i]);
      assert DataDigests(pushes) == DataDigests(pushes[..i]) + DataDigests(pushes[i..]) by {
        DataDigestsConcat(pushes[..i], pushes[i..]);
        assert pushes[..i] + pushes[i..] == pushes;
      }
      assert Digest(pushes[i].data) in DataDigests(pushes);
      hide Closure, DataDigests;
    }
  }

  // What one push does to the completeness of what is listed.
  lemma PushListedExactly(s: Store, x: Layer)
    requires Valid(s) && ListedComplete(s)
    ensures ListedComplete(Pushed(s, x)) <==> Ready(s.blobs.Keys, x)
  {
    hide Closure, Proper;
    var s' := Pushed(s, x);
    var desc := DescriptorOf(x);
    if Lists(s.blobs.Keys, x) {
      assert s'.listed[desc.digest] == desc && s'.blobs.Keys == s.blobs.Keys + {desc.digest};
      assert forall d | d in s'.listed && d != desc.digest :: d in s.listed && s'.listed[d] == s.listed[d];
    }
  }

  lemma PrefixStep(s: Store, pushes: seq<Layer>, i: nat)
    requires Valid(s) && i < |pushes|
    ensures PushedAll(s, pushes[..i + 1]) == Pushed(PushedAll(s, pushes[..i]), pushes[i])
    ensures Valid(PushedAll(s, pushes[..i])) && PushedAll(s, pushes[..i]).tags == s.tags
    ensures PushedAll(s, pushes[..i]).blobs.Keys == s.blobs.Keys + DataDigests(pushes[..i])
  {
    assert pushes[..i + 1][..i] == pushes[..i];
    PushAllKeeps(s, pushes[..i]);
    hide Valid, Pushed, DataDigests;
  }

  lemma NoPushes(s: Store, pushes: seq<Layer>)
    ensures PushedAll(s, pushes[..0]) == s
  {
  }

  // What is listed after the first n pushes is complete at every moment up to
  // then, exactly when each of them finds what it lists ready.
  ghost predicate CompleteUpTo(s: Store, pushes: seq<Layer>, n: nat)
    requires n <= |pushes|
  {
    forall k: nat | k <= n :: ListedComplete(PushedAll(s, pushes[..k]))
  }

  ghost predicate ReadyUpTo(have: set<Digest>, pushes: seq<Layer>, n: nat)
    requires n <= |pushes|
  {
    forall i | 0 <= i < n :: Ready(have + DataDigests(pushes[..i]), pushes[i])
  }

  lemma {:induction false} PrefixesUpTo(s: Store, pushes: seq<Layer>, n: nat)
    requires Valid(s) && ListedComplete(s) && n <= |pushes|
    ensures CompleteUpTo(s, pushes, n) <==> ReadyUpTo(s.blobs.Keys, pushes, n)
  {
    hide *;
    if n > 0 {
      PrefixesUpTo(s, pushes, n - 1);
      CompleteNext(s, pushes, n - 1);
      ReadyNext(s.blobs.Keys, pushes, n - 1);
      PrefixStep(s, pushes, n - 1);
      if ListedComplete(PushedAll(s, pushes[..n - 1])) {
        PushListedExactly(PushedAll(s, pushes[..n - 1]), pushes[n - 1]);
      }
    } else {
      NoneToDo(s, pushes);
    }
  }

  lemma CompleteNext(s: Store, pushes: seq<Layer>, n: nat)
    requires n < |pushes|
    ensures CompleteUpTo(s, pushes, n + 1) <==>
              CompleteUpTo(s, pushes, n) && ListedComplete(PushedAll(s, pushes[..n + 1]))
    ensures CompleteUpTo(s, pushes, n) ==> ListedComplete(PushedAll(s, pushes[..n]))
  {
    hide ListedComplete, PushedAll;
  }

  lemma ReadyNext(have: set<Digest>, pushes: seq<Layer>, n: nat)
    requires n < |pushes|
    ensures ReadyUpTo(have, pushes, n + 1) <==>
              ReadyUpTo(have, pushes, n) && Ready(have + DataDigests(pushes[..n]), pushes[n])
  {
    hide Ready, DataDigests;
  }

  lemma NoneToDo(s: Store, pushes: seq<Layer>)
    requires ListedComplete(s)
    ensures CompleteUpTo(s, pushes, 0) && ReadyUpTo(s.blobs.Keys, pushes, 0)
  {
    NoPushes(s, pushes);
    hide ListedComplete, PushedAll;
  }

  // Wherever a write is interrupted everything listed is complete, exactly when
  // each push finds what it lists ready.
  lemma InterruptedExactly(s: Store, pushes: seq<Layer>)
    requires Valid(s) && ListedComplete(s)
    ensures CompleteUpTo(s, pushes, |pushes|) <==> ReadyAfter(s.blobs.Keys, pushes)
  {
    PrefixesUpTo(s, pushes, |pushes|);
    hide CompleteUpTo, Ready, ListedComplete, Valid;
  }

  // So between any two pushes of a children-first write, and wherever it is
  // interrupted, every listed manifest is complete.
  lemma EveryPrefixComplete(s: Store, pushes: seq<Layer>, n: nat)
    requires Valid(s) && ListedComplete(s) && ChildrenFirst(pushes) && n <= |pushes|
    ensures Valid(PushedAll(s, pushes[..n])) && ListedComplete(PushedAll(s, pushes[..n]))
    ensures PushedAll(s, pushes[..n]).tags == s.tags
  {
    InOrderIsReady(s.blobs.Keys, pushes);
    InterruptedExactly(s, pushes);
    PushAllKeeps(s, pushes[..n]);
    hide Valid, ListedComplete, ReadyAfter, PushedAll;
  }

  // ---- The end of a write

  // What the pushes list, beside what was listed before.
  lemma {:induction false} PushedListed(s: Store, pushes: seq<Layer>, n: nat, have: set<Digest>)
    requires Valid(s) && n <= |pushes|
    ensures AllComplete(have, PushedAll(s, pushes[..n]).listed) <==>
              AllComplete(have, s.listed) && forall i | 0 <= i < n :: CompleteIn(s.blobs.Keys, pushes, i, have)
  {
    NoPushes(s, pushes);
    hide *;
    if n > 0 {
      PushedListed(s, pushes, n - 1, have);
      ListedStep(s, pushes, n - 1, have);
    }
  }

  lemma ListedStep(s: Store, pushes: seq<Layer>, i: nat, have: set<Digest>)
    requires Valid(s) && i < |pushes|
    ensures AllComplete(have, PushedAll(s, pushes[..i + 1]).listed) <==>
              AllComplete(have, PushedAll(s, pushes[..i]).listed) && CompleteIn(s.blobs.Keys, pushes, i, have)
  {
    PrefixStep(s, pushes, i);
    hide Valid, PushedAll, Pushed, Closure, AllComplete, Lists, DataDigests;
    ListedNext(PushedAll(s, pushes[..i]), pushes[i], have);
  }

  lemma ListedNext(s: Store, x: Layer, have: set<Digest>)
    requires Valid(s)
    ensures AllComplete(have, Pushed(s, x).listed) <==>
              AllComplete(have, s.listed) && (Lists(s.blobs.Keys, x) ==> Closure(DescriptorOf(x)) <= have)
  {
    hide Closure, Proper;
    var s' := Pushed(s, x);
    var desc := DescriptorOf(x);
    if Lists(s.blobs.Keys, x) {
      assert desc.digest !in s.listed && s'.listed[desc.digest] == desc;
      assert forall d | d in s.listed :: d in s'.listed && s'.listed[d] == s.listed[d];
    }
  }

  // After the whole write everything listed is complete, exactly when what it
  // listed is there in the end.
  lemma PushAllExactly(s: Store, pushes: seq<Layer>)
    requires Valid(s) && ListedComplete(s)
    ensures ListedComplete(PushedAll(s, pushes)) <==> ReadyInTheEnd(s.blobs.Keys, pushes)
  {
    var have := s.blobs.Keys + DataDigests(pushes);
    PushAllKeeps(s, pushes);
    PushedListed(s, pushes, |pushes|, have);
    assert pushes[..|pushes|] == pushes;
    ListedMore(s, have);
    hide Valid, Closure, PushedAll, DataDigests, Lists, AllComplete, CompleteIn;
  }

  lemma ListedMore(s: Store, have: set<Digest>)
    requires ListedComplete(s) && s.blobs.Keys <= have
    ensures AllComplete(have, s.listed)
  {
    hide Closure;
  }

  // Tagging lists a complete root in place of whatever was listed under its
  // digest, which reached no more.
  lemma PublishExactly(s: Store, pushes: seq<Layer>, root: Descriptor, tag: string)
    requires Valid(s) && ListedComplete(s) && Publishable(pushes, root)
    ensures ListedComplete(Published(s, pushes, root, tag)) <==> ReadyInTheEnd(s.blobs.Keys, pushes)
  {
    var mid := PushedAll(s, pushes);
    PushAllExactly(s, pushes);
    PushAllKeeps(s, pushes);
    assert Published(s, pushes, root, tag) == Tagged(mid, root, tag);
    assert Closure(root) <= mid.blobs.Keys && Proper(root);
    hide PushedAll, Publishable, ReadyInTheEnd, DataDigests, Published, Closure, Proper;
    TaggedListed(mid, root, tag);
  }

  lemma TaggedListed(s: Store, root: Descriptor, tag: string)
    requires Valid(s) && Closure(root) <= s.blobs.Keys && Proper(root)
    ensures ListedComplete(Tagged(s, root, tag)) <==> ListedComplete(s)
  {
    if root.digest in s.listed { ProperReachesMost(s.listed[root.digest], root); }
    hide Closure, Proper;
    var s' := Tagged(s, root, tag);
    assert forall d | d in s.listed && d != root.digest :: d in s'.listed && s'.listed[d] == s.listed[d];
  }

  lemma UntagListed(s: Store, tag: string)
    ensures ListedComplete(Untagged(s, tag)) <==> ListedComplete(s)
  {
    hide Closure;
  }

  // ---------------------------------------------------------------------
  // Prune

  // Whatever a listed manifest that some tag reaches reaches itself, some tag
  // reaches too.
  ghost predicate PruneSpares(s: Store) {
    forall d | d in s.listed && Reached(s, d) :: AllReached(s, s.listed[d])
  }

  ghost predicate AllReached(s: Store, desc: Descriptor) {
    forall x | x in Closure(desc) :: Reached(s, x)
  }

  // Prune leaves every listed manifest complete exactly then.
  lemma PruneCompleteExactly(s: Store)
    requires Valid(s)
    ensures ListedComplete(Pruned(s)) <==> PruneSpares(s)
  {
    if ListedComplete(Pruned(s)) {
      forall d | d in s.listed && Reached(s, d) ensures AllReached(s, s.listed[d]) {
        StillListed(s, d);
        hide *;
        ReachedExactly(s, s.listed[d]);
      }
    } else {
      NotSpared(s);
    }
  }

  lemma StillListed(s: Store, d: Digest)
    requires Valid(s) && ListedComplete(Pruned(s)) && d in s.listed && Reached(s, d)
    ensures Closure(s.listed[d]) <= Pruned(s).blobs.Keys
  {
    PrunedAt(s, d);
    hide Valid, Pruned, Reached, Closure;
  }

  lemma NotSpared(s: Store)
    requires Valid(s) && !ListedComplete(Pruned(s))
    ensures !PruneSpares(s)
  {
    var d :| d in Pruned(s).listed && !(Closure(Pruned(s).listed[d]) <= Pruned(s).blobs.Keys);
    PrunedAt(s, d);
    hide Valid, Pruned, Reached, Closure;
    ReachedExactly(s, s.listed[d]);
  }

  lemma ReachedExactly(s: Store, desc: Descriptor)
    requires Valid(s)
    ensures AllReached(s, desc) <==> Closure(desc) <= Pruned(s).blobs.Keys
  {
    forall x | x in Closure(desc) ensures Reached(s, x) <==> x in Pruned(s).blobs.Keys {
      PrunedAt(s, x);
      hide *;
    }
    hide Valid, Pruned, Reached, Closure;
  }

  // ---------------------------------------------------------------------
  // Stores no tagged manifest of which holds a manifest as a part

  ghost predicate Orderly(s: Store) {
    ListedComplete(s) && forall t | t in s.tags :: LeafParts(s.tags[t])
  }

  // There Prune spares what listed manifests reach.
  lemma PruneOrderly(s: Store)
    requires Valid(s) && Orderly(s)
    ensures Orderly(Pruned(s))
  {
    PruneCompleteExactly(s);
    PrunedTags(s);
    forall d | d in s.listed && Reached(s, d) ensures AllReached(s, s.listed[d]) { OrderlySpares(s, d); }
    hide Closure, LeafParts, Reached, AllReached, Pruned;
  }

  lemma OrderlySpares(s: Store, d: Digest)
    requires Valid(s) && Orderly(s) && d in s.listed && Reached(s, d)
    ensures AllReached(s, s.listed[d])
  {
    var tag :| tag in s.tags && d in Closure(s.tags[tag]);
    TagFacts(s, tag, d);
    ClosureClosed(s.tags[tag], d, s.listed[d]);
    hide Closure, Valid, Orderly;
  }

  lemma TagFacts(s: Store, tag: string, d: Digest)
    requires Valid(s) && Orderly(s) && tag in s.tags && d in s.listed
    ensures Proper(s.tags[tag]) && LeafParts(s.tags[tag]) && s.listed[d].digest == d
  {
    hide Proper, LeafParts, Closure;
  }

  // Publishing such an artifact children first keeps the store so.
  lemma PublishOrderly(s: Store, pushes: seq<Layer>, root: Descriptor, tag: string)
    requires Valid(s) && Orderly(s) && Publishable(pushes, root) && ChildrenFirst(pushes) && LeafParts(root)
    ensures Orderly(Published(s, pushes, root, tag))
  {
    InOrderIsReady(s.blobs.Keys, pushes);
    ReadyIsInTheEnd(s.blobs.Keys, pushes);
    PublishExactly(s, pushes, root, tag);
    PublishKeeps(s, pushes, root, tag);
    hide Valid, ListedComplete, LeafParts, ChildrenFirst, Publishable, Published, ReadyAfter, ReadyInTheEnd,
         DataDigests;
  }

  lemma AbandonOrderly(s: Store, pushes: seq<Layer>)
    requires Valid(s) && Orderly(s) && ChildrenFirst(pushes)
    ensures Orderly(PushedAll(s, pushes))
  {
    EveryPrefixComplete(s, pushes, |pushes|);
    assert pushes[..|pushes|] == pushes;
    hide Valid, LeafParts, ChildrenFirst, PushedAll, ListedComplete;
  }

  lemma UntagOrderly(s: Store, tag: string)
    requires Orderly(s)
    ensures Orderly(Untagged(s, tag))
  {
    hide Closure, LeafParts;
  }
}
