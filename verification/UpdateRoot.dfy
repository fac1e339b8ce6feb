/** Replacing an account's root document: the cbor path of ipldwalk.UpdateRoot followed by the
    RecursiveRemove of the old root, as sigbundle.ValidateAndSave runs them. */
module UpdateRoots {
  import opened Basics
  import opened DocStores
  import opened IpldWalk

  type Dataset = map<Multihash, Block>

  /** The document under a hash has no links of its own, neither stored nor about to be stored. */
  ghost predicate RawAt(p: Docs, dataset: Dataset, h: Multihash) {
    (h in p ==> LinksOf(p[h]) == [] && (p[h].data.Some? ==> p[h].data.value.Raw?)) && (h in dataset ==> dataset[h].Raw?)
  }

  ghost predicate AllRaw(p: Docs, dataset: Dataset, links: seq<Link>) {
    forall i :: 0 <= i < |links| ==> RawAt(p, dataset, links[i].cid)
  }

  /** No link lies about its codec: one that does not claim dag-cbor leads to a document without links. */
  ghost predicate Truthful(p: Docs, dataset: Dataset, links: seq<Link>) {
    forall i :: 0 <= i < |links| && links[i].codec != DAG_CBOR ==> RawAt(p, dataset, links[i].cid)
  }

  ghost predicate Positive(p: Docs) {
    forall h :: h in p ==> p[h].refs > 0
  }

  function One(b: bool): nat {
    if b then 1 else 0
  }

  /** The links the new root adds, and those of the old root it drops. */
  function Gained(newLinks: seq<Link>): set<Multihash> {
    set l | l in Cids(newLinks)
  }

  function Dropped(oldLinks: seq<Link>, newLinks: seq<Link>): set<Multihash> {
    set l | l in Cids(oldLinks) && l !in Cids(newLinks)
  }

  /** From `p` to `q` the documents `gained` have one reference more and the documents `lost` one less;
      links stay, and a document that is new has no links. */
  ghost predicate Recounted(p: Docs, q: Docs, gained: set<Multihash>, lost: set<Multihash>) {
    Positive(q) &&
    (forall h {:trigger Refs(q, h)} :: Refs(q, h) == Refs(p, h) + One(h in gained) - One(h in lost)) &&
    (forall h {:trigger h in q} :: h in q ==> LinksOf(q[h]) == if h in p then LinksOf(p[h]) else [])
  }

  datatype UpdateStatus = Updated(docsAdded: nat, docsNotFound: nat) | Fatal

  lemma InCids(links: seq<Link>, h: Multihash)
    ensures h in Cids(links) <==> exists i :: 0 <= i < |links| && links[i].cid == h
  {
    if h in Cids(links) {
      var i :| 0 <= i < |links| && Cids(links)[i] == h;
      assert links[i].cid == h;
    }
    forall i | 0 <= i < |links| && links[i].cid == h ensures h in Cids(links) { assert Cids(links)[i] == h; }
  }

  // ---- Building the link maps ---------------------------------------------------------------------------

  /** The i-th link is the first one to its document: its codec is the one that counts. */
  ghost predicate IsFirst(links: seq<Link>, i: int) {
    0 <= i < |links| && forall j :: 0 <= j < i ==> links[j].cid != links[i].cid
  }

  /** Some link that counts claims to lead to a dag-cbor document. */
  ghost predicate LinksDagCbor(links: seq<Link>) {
    exists i :: IsFirst(links, i) && links[i].codec == DAG_CBOR
  }

  lemma {:induction false} FirstLink(links: seq<Link>, i: nat) returns (j: nat)
    requires i < |links|
    ensures IsFirst(links, j) && links[j].cid == links[i].cid
    decreases i
  {
    if k :| 0 <= k < i && links[k].cid == links[i].cid {
      j := FirstLink(links, k);
    } else {
      j := i;
    }
  }

  lemma TruthfulIsRaw(p: Docs, dataset: Dataset, links: seq<Link>)
    requires Truthful(p, dataset, links) && !LinksDagCbor(links)
    ensures AllRaw(p, dataset, links)
  {
    hide RawAt;
    forall i | 0 <= i < |links| ensures RawAt(p, dataset, links[i].cid) {
      var j := FirstLink(links, i);
    }
  }

  /** One entry for each distinct hash, with the codec of its first link. */
  method UniqueLinks(newLinks: seq<Link>) returns (unique: map<Multihash, nat>)
    ensures unique.Keys == Gained(newLinks)
    ensures forall i :: IsFirst(newLinks, i) ==>
              newLinks[i].cid in unique && unique[newLinks[i].cid] == newLinks[i].codec
    ensures forall h :: h in unique ==> exists i :: IsFirst(newLinks, i) && newLinks[i] == Link(h, unique[h])
  {
    unique := map[];
    for i := 0 to |newLinks|
      invariant forall j :: 0 <= j < i ==> newLinks[j].cid in unique
      invariant forall j :: 0 <= j < i && IsFirst(newLinks, j) ==> unique[newLinks[j].cid] == newLinks[j].codec
      invariant forall h :: h in unique ==>
                  exists j :: 0 <= j < i && IsFirst(newLinks, j) && newLinks[j] == Link(h, unique[h])
    {
      var link := newLinks[i];
      if link.cid !in unique {
        assert IsFirst(newLinks, i);
        unique := unique[link.cid := link.codec];
      }
    }
    forall h: Multihash ensures h in unique <==> h in Gained(newLinks) { InCids(newLinks, h); }
  }

  /** One entry for each hash the new links no longer mention. */
  method RemovedLinks(oldLinks: seq<Link>, newLinks: seq<Link>) returns (removed: map<Multihash, nat>)
    ensures removed.Keys == Dropped(oldLinks, newLinks)
  {
    removed := map[];
    for i := 0 to |oldLinks|
      invariant forall h :: h in removed <==> exists j :: 0 <= j < i && oldLinks[j].cid == h && h !in Cids(newLinks)
    {
      var oldlink := oldLinks[i];
      var found := false;
      for j := 0 to |newLinks|
        invariant !found ==> forall k :: 0 <= k < j ==> newLinks[k].cid != oldlink.cid
        invariant found ==> oldlink.cid in Cids(newLinks)
      {
        if newLinks[j].cid == oldlink.cid {
          assert Cids(newLinks)[j] == oldlink.cid;
          found := true;
          break;
        }
      }
      if !found {
        removed := removed[oldlink.cid := oldlink.codec];
      }
    }
    forall h: Multihash ensures h in removed <==> h in Dropped(oldLinks, newLinks) { InCids(oldLinks, h); }
  }

  // ---- Single steps ---------------------------------------------------------------------------------------

  /** Doc.Add of a document without links. */
  lemma AddRecounts(p: Docs, q: Docs, gained: set<Multihash>, h: Multihash, data: Option<Block>)
    requires Recounted(p, q, gained, {}) && Refs(p, h) + 1 < U32 && h !in gained
    requires h in p ==> LinksOf(p[h]) == []
    requires h in q && q[h].data.Some? ==> q[h].data.value.Raw?
    requires data.Some? ==> data.value.Raw?
    ensures Recounted(p, Added(q, h, data), gained + {h}, {})
  {
    var s := Added(q, h, data);
    forall x ensures Refs(s, x) == Refs(p, x) + One(x in gained + {h}) - One(x in {}) {
      assert Refs(q, x) == Refs(p, x) + One(x in gained) - One(x in {});
    }
    forall x | x in s ensures LinksOf(s[x]) == if x in p then LinksOf(p[x]) else [] {
      if x != h { assert x in q; }
    }
  }

  lemma RemoveRecounts(p: Docs, q: Docs, gained: set<Multihash>, lost: set<Multihash>, h: Multihash)
    requires Recounted(p, q, gained, lost) && h in p && p[h].refs > 0 && h !in lost
    ensures Recounted(p, RefRemoved(q, h), gained, lost + {h})
  {
    var s := RefRemoved(q, h);
    assert Refs(q, h) == Refs(p, h) + One(h in gained) - One(h in lost);
    forall x ensures Refs(s, x) == Refs(p, x) + One(x in gained) - One(x in lost + {h}) {
      assert Refs(q, x) == Refs(p, x) + One(x in gained) - One(x in lost);
    }
  }

  /** Collecting a document without links is Doc.RemoveRef. */
  lemma CollectRaw(q: Docs, h: Multihash, rank: Rank)
    requires Ranked(q, rank) && (h in q ==> LinksOf(q[h]) == [])
    ensures Collected(q, h, rank) == RefRemoved(q, h)
  {
    if h in q && q[h].refs == 1 {
      CollectedIs(q, h, rank);
      EachStart(q, LinksOf(q[h]), rank, rank(h));
    }
  }

  lemma RecountedRanked(p: Docs, q: Docs, gained: set<Multihash>, lost: set<Multihash>, rank: Rank)
    requires Recounted(p, q, gained, lost) && Ranked(p, rank)
    ensures Ranked(q, rank)
  {
    forall h | h in q ensures LinksBelow(q[h], rank, rank(h)) {
      if h in p { assert LinksBelow(p[h], rank, rank(h)); }
    }
  }

  /** No count is about to wrap around at 2^32. */
  ghost predicate Roomy(p: Docs) {
    forall h :: h in p ==> p[h].refs + 2 < U32
  }

  // ---- UpdateRoot -----------------------------------------------------------------------------------------

  /** What is known about a linked document: what is stored already, else what came with the new root. */
  function DataOf(p: Docs, dataset: Dataset, h: Multihash): Option<Block> {
    if h in p && p[h].data.Some? then p[h].data else Get(dataset, h)
  }

  /** The linked documents that are found in neither place. */
  function NotFound(p: Docs, dataset: Dataset, hashes: set<Multihash>): set<Multihash> {
    set h | h in hashes && DataOf(p, dataset, h).None?
  }

  /** Every one of the documents is there with the data that is known about it. */
  ghost predicate Filled(p: Docs, q: Docs, dataset: Dataset, hashes: set<Multihash>) {
    forall h :: h in hashes ==> h in q && q[h].data == DataOf(p, dataset, h)
  }

  /** From `p` to `q` the documents `done` have been added, and nothing else. */
  ghost predicate Adding(p: Docs, q: Docs, dataset: Dataset, done: set<Multihash>) {
    Recounted(p, q, done, {}) && Filled(p, q, dataset, done) && forall h :: h !in done ==> Get(q, h) == Get(p, h)
  }

  lemma AddingStart(p: Docs, dataset: Dataset)
    requires Positive(p)
    ensures Adding(p, p, dataset, {}) && NotFound(p, dataset, {}) == {}
  {}

  lemma AddingStep(p: Docs, q: Docs, dataset: Dataset, done: set<Multihash>, h: Multihash, data: Option<Block>)
    requires Roomy(p) && RawAt(p, dataset, h) && Adding(p, q, dataset, done) && h !in done
    requires data == if h in dataset then Some(dataset[h]) else if h in q then q[h].data else None
    ensures Adding(p, Added(q, h, data), dataset, done + {h})
    ensures h !in dataset && data.None? <==> DataOf(p, dataset, h).None?
  {
    assert Get(q, h) == Get(p, h);
    AddRecounts(p, q, done, h, data);
    hide Recounted;
    forall x | x in done + {h} ensures x in Added(q, h, data) && Added(q, h, data)[x].data == DataOf(p, dataset, x) {
      if x != h { assert x in q && q[x].data == DataOf(p, dataset, x); }
    }
  }

  /** Add one reference to every distinct new link; what cannot be found is stored as a placeholder. */
  method AddNewLinks(store: DocStore<Block>, unique: map<Multihash, nat>, dataset: Dataset)
    returns (status: UpdateStatus)
    requires Positive(store.pastes) && Roomy(store.pastes)
    requires forall h :: h in unique && unique[h] != DAG_CBOR ==> RawAt(store.pastes, dataset, h)
    modifies store
    ensures status.Fatal? <==> exists h :: h in unique && unique[h] == DAG_CBOR
    ensures status.Updated? ==>
              Adding(old(store.pastes), store.pastes, dataset, unique.Keys) &&
              status.docsNotFound == |NotFound(old(store.pastes), dataset, unique.Keys)| &&
              status.docsAdded == |unique| - status.docsNotFound
  {
    hide Positive, Roomy, RawAt, Adding, NotFound, DataOf, Added;
    ghost var p := store.pastes;
    var todo, docsAdded, docsNotFound := unique.Keys, 0, 0;
    AddingStart(p, dataset);
    assert unique.Keys - todo == {};
    while todo != {}
      invariant todo <= unique.Keys
      invariant forall h :: h in unique.Keys - todo ==> unique[h] != DAG_CBOR
      invariant Adding(p, store.pastes, dataset, unique.Keys - todo)
      invariant docsNotFound == |NotFound(p, dataset, unique.Keys - todo)|
      invariant docsAdded + docsNotFound + |todo| == |unique|
      decreases |todo|
    {
      var multihash :| multihash in todo;
      if unique[multihash] == DAG_CBOR {
        return Fatal;  // RecursiveAdd is not implemented
      }
      var data: Option<Block>;
      if multihash in dataset {
        data := Some(dataset[multihash]);
        docsAdded := docsAdded + 1;
      } else {
        var docWithRefs, success := store.Get(multihash);
        if !success || docWithRefs.data.None? {
          data := None;
          docsNotFound := docsNotFound + 1;
        } else {
          data := docWithRefs.data;
          docsAdded := docsAdded + 1;
        }
      }
      AddingStep(p, store.pastes, dataset, unique.Keys - todo, multihash, data);
      store.Add(multihash, data);
      assert unique.Keys - (todo - {multihash}) == unique.Keys - todo + {multihash};
      OneMoreFound(p, dataset, unique.Keys - todo, multihash);
      todo := todo - {multihash};
    }
    assert unique.Keys - todo == unique.Keys;
    status := Updated(docsAdded, docsNotFound);
  }

  lemma OneMoreFound(p: Docs, dataset: Dataset, hashes: set<Multihash>, h: Multihash)
    requires h !in hashes
    ensures |NotFound(p, dataset, hashes + {h})| == |NotFound(p, dataset, hashes)| + One(DataOf(p, dataset, h).None?)
  {
    if DataOf(p, dataset, h).None? {
      assert NotFound(p, dataset, hashes + {h}) == NotFound(p, dataset, hashes) + {h};
    } else {
      assert NotFound(p, dataset, hashes + {h}) == NotFound(p, dataset, hashes);
    }
  }

  /** Take one reference from every link that is gone. */
  method RemoveOldLinks(store: DocStore<Block>, removed: map<Multihash, nat>, ghost p: Docs,
                        ghost gained: set<Multihash>, ghost rank: Rank)
    requires Positive(p) && Ranked(p, rank) && Recounted(p, store.pastes, gained, {})
    requires forall h :: h in removed ==> h in p && LinksOf(p[h]) == []
    modifies store
    ensures Recounted(p, store.pastes, gained, removed.Keys)
    ensures forall h :: h !in removed ==> Get(store.pastes, h) == Get(old(store.pastes), h)
    ensures forall h :: h in store.pastes ==>
              h in old(store.pastes) && store.pastes[h].data == old(store.pastes)[h].data
  {
    hide Recounted, Ranked, Positive, Collected, RefRemoved, LinksOf;
    var todo := removed.Keys;
    assert removed.Keys - todo == {};
    while todo != {}
      invariant todo <= removed.Keys
      invariant Recounted(p, store.pastes, gained, removed.Keys - todo)
      invariant forall h :: h !in removed ==> Get(store.pastes, h) == Get(old(store.pastes), h)
      invariant forall h :: h in store.pastes ==>
                  h in old(store.pastes) && store.pastes[h].data == old(store.pastes)[h].data
      decreases |todo|
    {
      var multihash :| multihash in todo;
      RemoveRaw(p, store.pastes, gained, removed.Keys - todo, multihash, rank);
      if removed[multihash] == DAG_CBOR {
        RecursiveRemove(store, multihash, rank);
      } else {
        store.RemoveRef(multihash);
      }
      assert removed.Keys - (todo - {multihash}) == removed.Keys - todo + {multihash};
      todo := todo - {multihash};
    }
    assert removed.Keys - todo == removed.Keys;
  }

  /** Removing a document without links is the same either way. */
  lemma RemoveRaw(p: Docs, q: Docs, gained: set<Multihash>, lost: set<Multihash>, h: Multihash, rank: Rank)
    requires Positive(p) && Ranked(p, rank) && Recounted(p, q, gained, lost)
    requires h in p && LinksOf(p[h]) == [] && h !in lost
    ensures Ranked(q, rank) && Collected(q, h, rank) == RefRemoved(q, h)
    ensures Recounted(p, RefRemoved(q, h), gained, lost + {h})
    ensures forall x :: x != h ==> Get(RefRemoved(q, h), x) == Get(q, x)
    ensures forall x :: x in RefRemoved(q, h) ==> x in q && RefRemoved(q, h)[x].data == q[x].data
  {
    RemoveRecounts(p, q, gained, lost, h);
    RecountedRanked(p, q, gained, lost, rank);
    CollectRaw(q, h, rank);
  }

  /** The store after UpdateRoot: one reference more for every distinct new link, one less for every dropped
      one, and the new root document. The linked documents hold what is known about them, all other data is
      what it was. */
  ghost predicate RootAdded(p: Docs, q: Docs, dataset: Dataset, newRoot: Multihash, oldLinks: seq<Link>,
                            newLinks: seq<Link>)
  {
    newRoot in q && q[newRoot].data == Some(Cbor(newLinks)) && q[newRoot].refs == Refs(p, newRoot) + 1 &&
    Recounted(p - {newRoot}, q - {newRoot}, Gained(newLinks), Dropped(oldLinks, newLinks)) &&
    Filled(p, q, dataset, Gained(newLinks)) && KeptData(p, q, Gained(newLinks) + {newRoot})
  }

  /** Documents outside `changed` have not changed their data. */
  ghost predicate KeptData(p: Docs, q: Docs, changed: set<Multihash>) {
    forall h :: h in q && h !in changed ==> h in p && q[h].data == p[h].data
  }

  /** The links of the old root, none without an old root. */
  ghost function OldLinks(p: Docs, orig: Option<Multihash>): seq<Link> {
    if orig.Some? && orig.value in p && p[orig.value].data.Some? && p[orig.value].data.value.Cbor?
    then p[orig.value].data.value.links else []
  }

  /** The new root's document is in the store already, as some account's root or below another document. */
  predicate StoredBefore(p: Docs, newRoot: Multihash) {
    newRoot in p && p[newRoot].data.Some?
  }

  /** What UpdateRoot needs from its caller on the cbor path: the new root decodes as dag-cbor, also where it is
      stored already, and its links do not lie about their codecs. The old root was a new root once, so that
      its links are none to documents with links. */
  ghost predicate CborReplace(p: Docs, dataset: Dataset, newRoot: Multihash, orig: Option<Multihash>, rank: Rank) {
    Positive(p) && Roomy(p) && Ranked(p, rank) &&
    newRoot in dataset && dataset[newRoot].Cbor? &&
    (StoredBefore(p, newRoot) ==> p[newRoot].data == Some(dataset[newRoot])) &&
    (forall l :: l in Cids(dataset[newRoot].links) ==> rank(l) < rank(newRoot)) &&
    Truthful(p, dataset, dataset[newRoot].links) && AllRaw(p, dataset, OldLinks(p, orig)) &&
    (forall l :: l in Cids(OldLinks(p, orig)) ==> l in p)
  }

  lemma RawByHash(p: Docs, dataset: Dataset, links: seq<Link>, h: Multihash)
    requires AllRaw(p, dataset, links) && h in Cids(links)
    ensures RawAt(p, dataset, h)
  {
    InCids(links, h);
  }

  /** The fatal exits of UpdateRoot on this path: the same root again, an old root that is missing or does not
      decode, or a link that claims to lead to a dag-cbor document. */
  ghost predicate CannotUpdate(p: Docs, newRoot: Multihash, orig: Option<Multihash>, newLinks: seq<Link>) {
    orig == Some(newRoot) ||
    (orig.Some? && (orig.value !in p || p[orig.value].data.None? || p[orig.value].data.value.Raw?)) ||
    LinksDagCbor(newLinks)
  }

  method UpdateRoot(store: DocStore<Block>, dataset: Dataset, newMultihash: Multihash,
                    origMultihash: Option<Multihash>, ghost rank: Rank)
    returns (status: UpdateStatus)
    requires CborReplace(store.pastes, dataset, newMultihash, origMultihash, rank)
    modifies store
    ensures status.Fatal? <==>
            CannotUpdate(old(store.pastes), newMultihash, origMultihash, dataset[newMultihash].links)
    ensures status.Updated? ==>
              ghost var p, oldLinks, links := old(store.pastes), OldLinks(old(store.pastes), origMultihash),
                                              dataset[newMultihash].links;
              RootAdded(p, store.pastes, dataset, newMultihash, oldLinks, links) && Ranked(store.pastes, rank) &&
              (origMultihash.Some? ==> OldRootIs(p, store.pastes, origMultihash.value, oldLinks)) &&
              status.docsNotFound == |NotFound(p, dataset, Gained(links))| &&
              status.docsAdded == |Gained(links)| - status.docsNotFound + 1
  {
    ghost var p := store.pastes;
    CallerFacts(p, dataset, newMultihash, origMultihash, rank);
    TruthfulLinks(p, dataset, dataset[newMultihash].links);
    hide Recounted, Positive, Roomy, Ranked, RawAt, Filled, KeptData, NotFound, Gained, Dropped, LinksOf, IsFirst,
      CborReplace, DataOf, Truthful;
    if origMultihash == Some(newMultihash) {
      return Fatal;  // "cannot add same multihash"
    }
    var newLinks, oldLinks := dataset[newMultihash].links, [];
    if origMultihash.Some? {
      var docWithRefs, success := store.Get(origMultihash.value);
      if !success || docWithRefs.data.None? || docWithRefs.data.value.Raw? {
        return Fatal;
      }
      oldLinks := docWithRefs.data.value.links;
    }
    var unique := UniqueLinks(newLinks);
    var removed := RemovedLinks(oldLinks, newLinks);
    var added := AddNewLinks(store, unique, dataset);
    if added.Fatal? {
      return Fatal;
    }
    ghost var q0 := store.pastes;
    RemoveOldLinks(store, removed, p, unique.Keys, rank);
    ghost var q := store.pastes;
    DataAfter(p, q0, q, dataset, oldLinks, newLinks);
    store.Add(newMultihash, Some(dataset[newMultihash]));
    RecountedRanked(p, q, unique.Keys, removed.Keys, rank);
    RootStored(p, q, dataset, newMultihash, oldLinks, newLinks, rank);
    status := Updated(added.docsAdded + 1, added.docsNotFound);
  }

  /** The dropped links lose references, not data. */
  lemma DataAfter(p: Docs, q0: Docs, q: Docs, dataset: Dataset, oldLinks: seq<Link>, newLinks: seq<Link>)
    requires Filled(p, q0, dataset, Gained(newLinks))
    requires forall h :: h !in Gained(newLinks) ==> Get(q0, h) == Get(p, h)
    requires forall h :: h !in Dropped(oldLinks, newLinks) ==> Get(q, h) == Get(q0, h)
    requires forall h :: h in q ==> h in q0 && q[h].data == q0[h].data
    ensures Filled(p, q, dataset, Gained(newLinks)) && KeptData(p, q, Gained(newLinks))
  {
    forall h | h in Gained(newLinks) ensures h in q && q[h].data == DataOf(p, dataset, h) {
      assert Get(q, h) == Get(q0, h);
    }
    forall h | h in q && h !in Gained(newLinks) ensures h in p && q[h].data == p[h].data {
      assert Get(q0, h) == Get(p, h);
    }
  }

  lemma TruthfulLinks(p: Docs, dataset: Dataset, links: seq<Link>)
    requires Truthful(p, dataset, links)
    ensures forall i :: IsFirst(links, i) && links[i].codec != DAG_CBOR ==> RawAt(p, dataset, links[i].cid)
  {}

  lemma CallerFacts(p: Docs, dataset: Dataset, newRoot: Multihash, orig: Option<Multihash>, rank: Rank)
    requires CborReplace(p, dataset, newRoot, orig, rank)
    ensures Positive(p) && Roomy(p) && Ranked(p, rank)
    ensures newRoot in dataset && dataset[newRoot].Cbor?
    ensures newRoot in p ==> p[newRoot].data == None || p[newRoot].data == Some(dataset[newRoot])
    ensures var newLinks, oldLinks := dataset[newRoot].links, OldLinks(p, orig);
            (forall l :: l in Cids(newLinks) ==> rank(l) < rank(newRoot)) &&
            newRoot !in Gained(newLinks) && newRoot !in Dropped(oldLinks, newLinks) &&
            (forall h :: h in Dropped(oldLinks, newLinks) ==> h in p && LinksOf(p[h]) == []) &&
            (OldRootHas(p, orig, oldLinks) ==> orig.value !in Dropped(oldLinks, newLinks)) &&
            (!LinksDagCbor(newLinks) ==>
              (forall h :: h in Gained(newLinks) ==> RawAt(p, dataset, h)) &&
              (OldRootHas(p, orig, oldLinks) ==> orig.value !in Gained(newLinks)))
    ensures orig.None? ==> OldLinks(p, orig) == []
  {
    var newLinks, oldLinks := dataset[newRoot].links, OldLinks(p, orig);
    if !LinksDagCbor(newLinks) {
      TruthfulIsRaw(p, dataset, newLinks);
      forall h | h in Gained(newLinks) ensures RawAt(p, dataset, h) { RawByHash(p, dataset, newLinks, h); }
    }
    forall h | h in Dropped(oldLinks, newLinks) ensures RawAt(p, dataset, h) && h in p {
      RawByHash(p, dataset, oldLinks, h);
    }
  }

  ghost predicate OldRootHas(p: Docs, orig: Option<Multihash>, links: seq<Link>) {
    orig.Some? && orig.value in p && p[orig.value].data == Some(Cbor(links))
  }

  lemma RootStored(p: Docs, q: Docs, dataset: Dataset, newRoot: Multihash, oldLinks: seq<Link>,
                   newLinks: seq<Link>, rank: Rank)
    requires Recounted(p, q, Gained(newLinks), Dropped(oldLinks, newLinks)) && Ranked(q, rank) && Positive(p)
    requires newRoot !in Gained(newLinks) && newRoot !in Dropped(oldLinks, newLinks) && Refs(p, newRoot) + 1 < U32
    requires newRoot in p ==> p[newRoot].data == None || p[newRoot].data == Some(Cbor(newLinks))
    requires forall l :: l in Cids(newLinks) ==> rank(l) < rank(newRoot)
    requires Filled(p, q, dataset, Gained(newLinks)) && KeptData(p, q, Gained(newLinks))
    ensures RootAdded(p, Added(q, newRoot, Some(Cbor(newLinks))), dataset, newRoot, oldLinks, newLinks)
    ensures Ranked(Added(q, newRoot, Some(Cbor(newLinks))), rank)
    ensures forall h :: h != newRoot ==> Get(Added(q, newRoot, Some(Cbor(newLinks))), h) == Get(q, h)
  {
    hide LinksOf, Cids, Filled, Gained, Dropped, Ranked;
    RefsUnlinked(p, q, Gained(newLinks), Dropped(oldLinks, newLinks), newRoot);
    RootIsRanked(q, newRoot, newLinks, rank);
    RecountedWithout(p, q, Gained(newLinks), Dropped(oldLinks, newLinks), newRoot);
    StoredRoot(p, q, newRoot, newLinks);
    FilledStays(p, q, Added(q, newRoot, Some(Cbor(newLinks))), dataset, Gained(newLinks), newRoot);
  }

  /** The root document itself gets one reference more, and its data if it had none. */
  lemma StoredRoot(p: Docs, q: Docs, newRoot: Multihash, newLinks: seq<Link>)
    requires Get(q, newRoot) == Get(p, newRoot) && Refs(p, newRoot) + 1 < U32
    requires newRoot in p ==> p[newRoot].data == None || p[newRoot].data == Some(Cbor(newLinks))
    ensures
      var s := Added(q, newRoot, Some(Cbor(newLinks)));
      newRoot in s && s[newRoot].data == Some(Cbor(newLinks)) && s[newRoot].refs == Refs(p, newRoot) + 1 &&
      s - {newRoot} == q - {newRoot} && forall h :: h != newRoot ==> Get(s, h) == Get(q, h)
  {}

  lemma FilledStays(p: Docs, q: Docs, s: Docs, dataset: Dataset, hashes: set<Multihash>, newRoot: Multihash)
    requires Filled(p, q, dataset, hashes) && KeptData(p, q, hashes) && newRoot !in hashes
    requires forall h :: h != newRoot ==> Get(s, h) == Get(q, h)
    ensures Filled(p, s, dataset, hashes) && KeptData(p, s, hashes + {newRoot})
  {
    forall h | h in hashes ensures h in s && s[h].data == DataOf(p, dataset, h) { assert Get(s, h) == Get(q, h); }
    forall h | h in s && h !in hashes + {newRoot} ensures h in p && s[h].data == p[h].data {
      assert Get(s, h) == Get(q, h);
    }
  }

  lemma RefsUnlinked(p: Docs, q: Docs, gained: set<Multihash>, lost: set<Multihash>, h: Multihash)
    requires Recounted(p, q, gained, lost) && Positive(p) && h !in gained && h !in lost && KeptData(p, q, gained)
    ensures Get(q, h) == Get(p, h)
  {
    assert Refs(q, h) == Refs(p, h) + One(h in gained) - One(h in lost);
    CountedIsStored(p, h);
    CountedIsStored(q, h);
    if h in q { assert q[h] == DocWithRefs(q[h].data, q[h].refs); }
  }

  lemma RecountedWithout(p: Docs, q: Docs, gained: set<Multihash>, lost: set<Multihash>, h: Multihash)
    requires Recounted(p, q, gained, lost) && h !in gained && h !in lost
    ensures Recounted(p - {h}, q - {h}, gained, lost)
  {
    forall x ensures Refs(q - {h}, x) == Refs(p - {h}, x) + One(x in gained) - One(x in lost) {
      assert Refs(q, x) == Refs(p, x) + One(x in gained) - One(x in lost);
    }
    forall x | x in q - {h} ensures LinksOf(q[x]) == if x in p - {h} then LinksOf(p[x]) else [] {
      assert x in q;
    }
  }

  lemma RootIsRanked(q: Docs, newRoot: Multihash, newLinks: seq<Link>, rank: Rank)
    requires Ranked(q, rank) && forall l :: l in Cids(newLinks) ==> rank(l) < rank(newRoot)
    requires newRoot in q ==> q[newRoot].data == None || q[newRoot].data == Some(Cbor(newLinks))
    ensures Ranked(Added(q, newRoot, Some(Cbor(newLinks))), rank)
  {
    var s := Added(q, newRoot, Some(Cbor(newLinks)));
    forall h | h in s ensures LinksBelow(s[h], rank, rank(h)) {
      if h != newRoot { assert LinksBelow(q[h], rank, rank(h)); }
    }
  }

  // ---- Replacing a root -----------------------------------------------------------------------------------

  function Minus(a: int, b: int): nat {
    if a < b then 0 else a - b
  }

  /** Collecting documents without links just takes references, one for each occurrence. */
  lemma {:induction false} EachRaw(p: Docs, links: seq<Multihash>, rank: Rank, r: nat)
    requires Ranked(p, rank) && Positive(p)
    requires forall l :: l in links ==> rank(l) < r && (l in p ==> LinksOf(p[l]) == [])
    ensures Positive(EachCollected(p, links, rank, r))
    ensures forall h {:trigger Refs(EachCollected(p, links, rank, r), h)} ::
              Refs(EachCollected(p, links, rank, r), h) == Minus(Refs(p, h), multiset(links)[h])
    decreases |links|
  {
    if links == [] {
      EachStart(p, links, rank, r);
    } else {
      var l, q := links[0], Collected(p, links[0], rank);
      assert links == [l] + links[1..];
      CollectRaw(p, l, rank);
      EachStep(p, links, rank, r);
      RemovedOnce(p, l);
      hide RefRemoved, Collected, Ranked, LinksOf;
      forall x | x in links[1..] ensures rank(x) < r && (x in q ==> LinksOf(q[x]) == []) { SameBlock(p, q, x, l); }
      EachRaw(q, links[1..], rank, r);
      forall h ensures Refs(EachCollected(p, links, rank, r), h) == Minus(Refs(p, h), multiset(links)[h]) {
        assert Refs(q, h) == Minus(Refs(p, h), One(h == l));
      }
    }
  }

  lemma RemovedOnce(p: Docs, l: Multihash)
    requires Positive(p)
    ensures Positive(RefRemoved(p, l))
    ensures forall h {:trigger Refs(RefRemoved(p, l), h)} :: Refs(RefRemoved(p, l), h) == Minus(Refs(p, h), One(h == l))
    ensures forall h :: h in RefRemoved(p, l) ==> h in p && RefRemoved(p, l)[h].data == p[h].data
  {}

  lemma SameBlock(p: Docs, q: Docs, x: Multihash, l: Multihash)
    requires x in q ==> x in p && q[x].data == p[x].data
    requires x in p ==> LinksOf(p[x]) == []
    ensures x in q ==> LinksOf(q[x]) == []
  {}

  /** The old root loses its account's reference; when that was the last one, so do its links. */
  function Released(p: Docs, orig: Option<Multihash>): bool {
    orig.Some? && orig.value in p && p[orig.value].refs == 1
  }

  /** The store after the old root has been released as well. */
  ghost function Replaced(p1: Docs, orig: Option<Multihash>, rank: Rank): Docs
    requires Ranked(p1, rank)
  {
    if orig.Some? then Collected(p1, orig.value, rank) else p1
  }

  /** A replacement: the store before and after UpdateRoot, its arguments, and the links of both roots. */
  datatype Replacement = Replacement(p: Docs, p1: Docs, dataset: Dataset, newRoot: Multihash, orig: Option<Multihash>,
                                     rank: Rank, oldLinks: seq<Link>, newLinks: seq<Link>)

  /** Everything the two calls start from. */
  ghost predicate Start(r: Replacement) {
    CborReplace(r.p, r.dataset, r.newRoot, r.orig, r.rank) && !LinksDagCbor(r.newLinks) &&
    r.oldLinks == OldLinks(r.p, r.orig) && r.newLinks == r.dataset[r.newRoot].links &&
    RootAdded(r.p, r.p1, r.dataset, r.newRoot, r.oldLinks, r.newLinks) && Ranked(r.p1, r.rank) &&
    (r.orig.Some? ==> OldRootIs(r.p, r.p1, r.orig.value, r.oldLinks))
  }

  /** The old root is a dag-cbor document, and UpdateRoot does not touch it. */
  ghost predicate OldRootIs(p: Docs, p1: Docs, root: Multihash, oldLinks: seq<Link>) {
    root in p && Get(p1, root) == Get(p, root) && p[root].data == Some(Cbor(oldLinks))
  }

  lemma AfterUpdate(r: Replacement, h: Multihash)
    requires Start(r)
    ensures Positive(r.p1) && r.newRoot in r.p1 && r.p1[r.newRoot].data == Some(Cbor(r.newLinks))
    ensures Refs(r.p1, r.newRoot) == Refs(r.p, r.newRoot) + 1
    ensures h != r.newRoot ==>
              Refs(r.p1, h) == Refs(r.p, h) + One(h in Gained(r.newLinks)) - One(h in Dropped(r.oldLinks, r.newLinks))
    ensures h != r.newRoot && h in r.p1 ==> LinksOf(r.p1[h]) == if h in r.p then LinksOf(r.p[h]) else []
    ensures h in Cids(r.oldLinks) ==> h in r.p && LinksOf(r.p[h]) == [] && h != r.newRoot && Some(h) != r.orig
    ensures h in Cids(r.newLinks) ==> (h in r.p ==> LinksOf(r.p[h]) == []) && h != r.newRoot && Some(h) != r.orig
  {
    CallerFacts(r.p, r.dataset, r.newRoot, r.orig, r.rank);
    assert Refs(r.p1 - {r.newRoot}, h) ==
           Refs(r.p - {r.newRoot}, h) + One(h in Gained(r.newLinks)) - One(h in Dropped(r.oldLinks, r.newLinks));
    if h in Cids(r.oldLinks) { RawByHash(r.p, r.dataset, r.oldLinks, h); }
    if h in Cids(r.newLinks) {
      assert h in Gained(r.newLinks);
    }
    forall x | x in r.p1 ensures r.p1[x].refs > 0 { if x != r.newRoot { assert x in r.p1 - {r.newRoot}; } }
  }

  lemma CountsAfter(r: Replacement, h: Multihash)
    requires Start(r)
    ensures var q := Replaced(r.p1, r.orig, r.rank);
            Positive(q) && (h in q ==> h in r.p1 && q[h].data == r.p1[h].data) &&
            Refs(q, h) ==
              if h == r.newRoot then Refs(r.p, h) + 1
              else if Some(h) == r.orig then Refs(r.p, h) - 1
              else Minus(Refs(r.p, h) + One(h in Gained(r.newLinks)) - One(h in Dropped(r.oldLinks, r.newLinks)),
                         if Released(r.p, r.orig) then multiset(Cids(r.oldLinks))[h] else 0)
  {
    AfterUpdate(r, h);
    if r.orig.Some? {
      var o := r.orig.value;
      AfterUpdate(r, o);
      CollectedIs(r.p1, o, r.rank);
      assert LinksOf(r.p1[o]) == Cids(r.oldLinks);
      forall l | l in Cids(r.oldLinks) ensures l in r.p1 ==> LinksOf(r.p1[l]) == [] {
        AfterUpdate(r, l);
      }
      if r.p[o].refs == 1 {
        EachRaw(r.p1, Cids(r.oldLinks), r.rank, r.rank(o));
        RemovedOnce(EachCollected(r.p1, Cids(r.oldLinks), r.rank, r.rank(o)), o);
        ReleasedCounts(r.p1, Cids(r.oldLinks), r.rank, o, h);
        assert r.newRoot !in Cids(r.oldLinks) by { AfterUpdate(r, r.newRoot); }
      } else {
        RemovedOnce(r.p1, o);
      }
    }
  }

  lemma ReleasedCounts(p1: Docs, links: seq<Multihash>, rank: Rank, o: Multihash, h: Multihash)
    requires Ranked(p1, rank) && o in p1 && LinksOf(p1[o]) == links && p1[o].refs == 1
    requires forall l :: l in links ==> rank(l) < rank(o)
    requires forall x {:trigger Refs(EachCollected(p1, links, rank, rank(o)), x)} ::
               Refs(EachCollected(p1, links, rank, rank(o)), x) == Minus(Refs(p1, x), multiset(links)[x])
    requires Positive(EachCollected(p1, links, rank, rank(o)))
    ensures Refs(Collected(p1, o, rank), h) == Minus(Minus(Refs(p1, h), multiset(links)[h]), One(h == o))
    ensures o !in links
  {
    CollectedIs(p1, o, rank);
    var q := EachCollected(p1, links, rank, rank(o));
    RemovedOnce(q, o);
    assert Refs(q, h) == Minus(Refs(p1, h), multiset(links)[h]);
    assert Refs(RefRemoved(q, o), h) == Minus(Refs(q, h), One(h == o));
  }

  // ---- All links before and after -----------------------------------------------------------------------

  ghost function LinkDocs(p: Docs): set<Multihash> {
    set h | h in p && LinksOf(p[h]) != []
  }

  lemma {:induction false} BagOfLinkDocs(p: Docs, keys: set<Multihash>)
    requires keys <= p.Keys
    ensures Bag(p, keys) == Bag(p, keys * LinkDocs(p))
  {
    var raw := keys - LinkDocs(p);
    if h :| h in raw {
      BagTake(p, keys, h);
      assert LinksOf(p[h]) == [];
      BagOfLinkDocs(p, keys - {h});
      assert (keys - {h}) * LinkDocs(p) == keys * LinkDocs(p);
    } else {
      forall h | h in keys ensures h in LinkDocs(p) { assert h !in raw; }
      assert keys * LinkDocs(p) == keys;
    }
  }

  lemma LinkDocsAfter(r: Replacement, h: Multihash)
    requires Start(r)
    ensures var q := Replaced(r.p1, r.orig, r.rank);
            (h in LinkDocs(q) <==> if h == r.newRoot then Cids(r.newLinks) != []
                                   else h in LinkDocs(r.p) && !(Some(h) == r.orig && Released(r.p, r.orig))) &&
            (h in LinkDocs(q) ==> LinksOf(q[h]) == if h == r.newRoot then Cids(r.newLinks) else LinksOf(r.p[h]))
  {
    var q := Replaced(r.p1, r.orig, r.rank);
    AfterUpdate(r, h);
    CountsAfter(r, h);
    CallerFacts(r.p, r.dataset, r.newRoot, r.orig, r.rank);
    if h in LinkDocs(r.p) && h != r.newRoot {
      assert h !in Gained(r.newLinks) && h !in Dropped(r.oldLinks, r.newLinks) && h !in Cids(r.oldLinks);
    }
  }

  lemma BagAfter(r: Replacement)
    requires Start(r)
    ensures var q := Replaced(r.p1, r.orig, r.rank);
            Bag(q, q.Keys) + (if Released(r.p, r.orig) then multiset(Cids(r.oldLinks)) else multiset{}) +
              (if StoredBefore(r.p, r.newRoot) then multiset(Cids(r.newLinks)) else multiset{}) ==
            Bag(r.p, r.p.Keys) + multiset(Cids(r.newLinks))
  {
    var q := Replaced(r.p1, r.orig, r.rank);
    var common := LinkDocs(r.p) - Gone(r.p, r.orig) - {r.newRoot};
    forall h: Multihash ensures LinksAfter(r.p, q, r.newRoot, r.newLinks, common, h) {
      LinkDocsAfter(r, h);
      CallerFacts(r.p, r.dataset, r.newRoot, r.orig, r.rank);
    }
    CountsAfter(r, r.newRoot);
    AfterUpdate(r, r.newRoot);
    CallerFacts(r.p, r.dataset, r.newRoot, r.orig, r.rank);
    assert r.newRoot in q && LinksOf(q[r.newRoot]) == Cids(r.newLinks) && r.newRoot !in common;
    assert r.orig.Some? && r.orig.value in r.p ==> LinksOf(r.p[r.orig.value]) == Cids(r.oldLinks);
    assert r.newRoot in r.p ==>
             LinksOf(r.p[r.newRoot]) == if StoredBefore(r.p, r.newRoot) then Cids(r.newLinks) else [];
    StartFacts(r);
    hide *;
    JoinBags(r.p, q, r.orig, r.oldLinks, r.newRoot, r.newLinks, common);
  }

  ghost predicate LinksAfter(p: Docs, q: Docs, newRoot: Multihash, newLinks: seq<Link>, common: set<Multihash>,
                             h: Multihash) {
    (h in LinkDocs(q) <==> h in common || (h == newRoot && Cids(newLinks) != [])) &&
    (h in common ==> h in p && LinksOf(q[h]) == LinksOf(p[h]))
  }

  lemma JoinBags(p: Docs, q: Docs, orig: Option<Multihash>, oldLinks: seq<Link>, newRoot: Multihash,
                 newLinks: seq<Link>, common: set<Multihash>)
    requires forall h :: LinksAfter(p, q, newRoot, newLinks, common, h)
    requires newRoot in q && LinksOf(q[newRoot]) == Cids(newLinks) && newRoot !in common
    requires orig.Some? && orig.value in p ==> LinksOf(p[orig.value]) == Cids(oldLinks)
    requires newRoot in p ==> LinksOf(p[newRoot]) == if StoredBefore(p, newRoot) then Cids(newLinks) else []
    requires orig != Some(newRoot)
    requires common == LinkDocs(p) - Gone(p, orig) - {newRoot}
    ensures Bag(q, q.Keys) + (if Released(p, orig) then multiset(Cids(oldLinks)) else multiset{}) +
              (if StoredBefore(p, newRoot) then multiset(Cids(newLinks)) else multiset{}) ==
            Bag(p, p.Keys) + multiset(Cids(newLinks))
  {
    hide LinkDocs, LinksOf, Gone, Released, Bag;
    assert forall h :: LinksAfter(p, q, newRoot, newLinks, common, h) ==>
                         (h in LinkDocs(q) <==> h in common || (h == newRoot && Cids(newLinks) != []));
    BagBefore(p, orig, oldLinks);
    BagWithRoot(q, newRoot, newLinks, common);
    LinkDocsStored(p);
    NewRootBefore(p, orig, newRoot, newLinks);
    forall h | h in common ensures LinksOf(q[h]) == LinksOf(p[h]) {
      assert LinksAfter(p, q, newRoot, newLinks, common, h);
    }
    BagSame(p, q, common);
  }

  lemma LinkDocsStored(p: Docs)
    ensures LinkDocs(p) <= p.Keys
  {}

  /** The links that the new root's document had before. */
  lemma NewRootBefore(p: Docs, orig: Option<Multihash>, newRoot: Multihash, newLinks: seq<Link>)
    requires newRoot in p ==> LinksOf(p[newRoot]) == if StoredBefore(p, newRoot) then Cids(newLinks) else []
    requires orig != Some(newRoot)
    ensures LinkDocs(p) <= p.Keys
    ensures Bag(p, LinkDocs(p) - Gone(p, orig)) ==
            Bag(p, LinkDocs(p) - Gone(p, orig) - {newRoot}) +
              if StoredBefore(p, newRoot) then multiset(Cids(newLinks)) else multiset{}
  {
    var keys := LinkDocs(p) - Gone(p, orig);
    if newRoot in keys {
      BagTake(p, keys, newRoot);
    } else {
      assert keys - {newRoot} == keys;
      assert StoredBefore(p, newRoot) ==> multiset(Cids(newLinks)) == multiset{};
    }
  }

  ghost function Gone(p: Docs, orig: Option<Multihash>): set<Multihash> {
    if Released(p, orig) then {orig.value} else {}
  }

  lemma BagBefore(p: Docs, orig: Option<Multihash>, oldLinks: seq<Link>)
    requires orig.Some? && orig.value in p ==> LinksOf(p[orig.value]) == Cids(oldLinks)
    ensures Bag(p, p.Keys) == Bag(p, LinkDocs(p) - Gone(p, orig)) +
                              if Released(p, orig) then multiset(Cids(oldLinks)) else multiset{}
  {
    BagOfLinkDocs(p, p.Keys);
    assert p.Keys * LinkDocs(p) == LinkDocs(p);
    if Released(p, orig) && orig.value in LinkDocs(p) {
      BagTake(p, LinkDocs(p), orig.value);
    } else {
      assert LinkDocs(p) - Gone(p, orig) == LinkDocs(p);
    }
  }

  lemma RootHasLinks(q: Docs, h: Multihash, links: seq<Link>)
    ensures h in q && LinksOf(q[h]) == Cids(links) ==> (h in LinkDocs(q) <==> Cids(links) != [])
    ensures LinkDocs(q) <= q.Keys
  {}

  lemma BagWithRoot(q: Docs, newRoot: Multihash, newLinks: seq<Link>, common: set<Multihash>)
    requires newRoot in q && newRoot !in common && LinksOf(q[newRoot]) == Cids(newLinks)
    requires forall h :: h in LinkDocs(q) <==> h in common || (h == newRoot && Cids(newLinks) != [])
    ensures common <= q.Keys && Bag(q, q.Keys) == Bag(q, common) + multiset(Cids(newLinks))
  {
    hide Bag, Cids, LinksOf;
    RootHasLinks(q, newRoot, newLinks);
    BagOfLinkDocs(q, q.Keys);
    assert q.Keys * LinkDocs(q) == LinkDocs(q);
    assert forall h :: h in common ==> h in LinkDocs(q);
    if Cids(newLinks) != [] {
      BagTake(q, LinkDocs(q), newRoot);
      assert LinkDocs(q) - {newRoot} == common;
    } else {
      assert LinkDocs(q) == common;
    }
  }

  // ---- The theorem ----------------------------------------------------------------------------------------

  ghost predicate NoDuplicates(links: seq<Multihash>) {
    forall i, j :: 0 <= i < j < |links| ==> links[i] != links[j]
  }

  /** The guard: the new root is not stored yet, or has no links; it links no hash twice; and whatever it drops
      was used by the old root alone, which itself had no other reference. */
  ghost predicate KeepsCounts(p: Docs, newRoot: Multihash, orig: Option<Multihash>, oldLinks: seq<Link>,
                              newLinks: seq<Link>) {
    (StoredBefore(p, newRoot) ==> newLinks == []) && NoDuplicates(Cids(newLinks)) &&
    forall l :: l in Dropped(oldLinks, newLinks) ==> Released(p, orig) && Refs(p, l) == multiset(Cids(oldLinks))[l]
  }

  /** The external references after the replacement. */
  ghost function Reassigned(ext: multiset<Multihash>, orig: Option<Multihash>,
                            newRoot: Multihash): multiset<Multihash> {
    (if orig.Some? then ext - multiset{orig.value} else ext) + multiset{newRoot}
  }

  lemma {:induction false} DuplicateFreeCounts(s: seq<Multihash>)
    ensures NoDuplicates(s) <==> forall x :: x in s ==> multiset(s)[x] == 1
  {
    if s != [] {
      var last, init := s[|s| - 1], s[..|s| - 1];
      assert s == init + [last];
      DuplicateFreeCounts(init);
      if NoDuplicates(s) {
        assert last !in init;
        assert NoDuplicates(init);
        forall x | x in s ensures multiset(s)[x] == 1 { assert x in init || x == last; }
      }
      if forall x :: x in s ==> multiset(s)[x] == 1 {
        assert multiset(s)[last] == 1 && multiset(init)[last] == 0;
        forall x | x in init ensures multiset(init)[x] == 1 { assert x in s && x != last && multiset(s)[x] == 1; }
      }
    }
  }

  /** Whether the count of one document is exact after the replacement. */
  lemma CountIsExact(r: Replacement, ext: multiset<Multihash>, h: Multihash)
    requires Start(r)
    requires Exact(r.p, ext) && (r.orig.Some? ==> r.orig.value in ext)
    ensures var q, e := Replaced(r.p1, r.orig, r.rank), Reassigned(ext, r.orig, r.newRoot);
            Refs(q, h) == e[h] + Bag(q, q.Keys)[h] <==> CountKept(r.p, r.newRoot, r.orig, r.oldLinks, r.newLinks, h)
  {
    hide *;
    StartFacts(r);
    var q := Replaced(r.p1, r.orig, r.rank);
    CountsAfter(r, h);
    AfterUpdate(r, h);
    BagAfter(r);
    OldLinksCounted(r.p, r.orig, r.oldLinks, h);
    ExactCount(r.p, ext, h);
    Reassignment(ext, r.orig, r.newRoot, h);
    LinkSets(r.oldLinks, r.newLinks, h);
    var mo, mn := multiset(Cids(r.oldLinks)), multiset(Cids(r.newLinks));
    var stored := if StoredBefore(r.p, r.newRoot) then mn else multiset{};
    assert (Bag(q, q.Keys) + (if Released(r.p, r.orig) then mo else multiset{}) + stored)[h] ==
           (Bag(r.p, r.p.Keys) + mn)[h];
    CountArithmetic(Refs(r.p, h), ext[h], Bag(r.p, r.p.Keys)[h], Bag(q, q.Keys)[h], mo[h], mn[h],
                    h == r.newRoot, Some(h) == r.orig,
                    Released(r.p, r.orig), StoredBefore(r.p, r.newRoot), Refs(q, h),
                    Reassigned(ext, r.orig, r.newRoot)[h]);
    CountKeptIs(r.p, r.newRoot, r.orig, r.oldLinks, r.newLinks, h);
  }

  lemma CountKeptIs(p: Docs, newRoot: Multihash, orig: Option<Multihash>, oldLinks: seq<Link>, newLinks: seq<Link>,
                    h: Multihash)
    ensures CountKept(p, newRoot, orig, oldLinks, newLinks, h) <==>
              (h in Cids(newLinks) ==> !StoredBefore(p, newRoot) && multiset(Cids(newLinks))[h] == 1) &&
              (h in Dropped(oldLinks, newLinks) ==> Released(p, orig) && Refs(p, h) == multiset(Cids(oldLinks))[h])
  {}

  lemma StartFacts(r: Replacement)
    requires Start(r)
    ensures Ranked(r.p1, r.rank)
    ensures r.orig.Some? ==>
              r.orig.value in r.p && r.orig.value != r.newRoot && LinksOf(r.p[r.orig.value]) == Cids(r.oldLinks)
    ensures r.orig.None? ==> r.oldLinks == []
  {}

  lemma ExactCount(p: Docs, ext: multiset<Multihash>, h: Multihash)
    requires Exact(p, ext)
    ensures Refs(p, h) == ext[h] + Bag(p, p.Keys)[h]
  {
    assert p.Keys - {} == p.Keys;
  }

  lemma Reassignment(ext: multiset<Multihash>, orig: Option<Multihash>, newRoot: Multihash, h: Multihash)
    requires orig.Some? ==> orig.value in ext && orig.value != newRoot
    ensures Reassigned(ext, orig, newRoot)[h] == ext[h] - One(Some(h) == orig) + One(h == newRoot)
  {}

  lemma LinkSets(oldLinks: seq<Link>, newLinks: seq<Link>, h: Multihash)
    ensures h in Gained(newLinks) <==> multiset(Cids(newLinks))[h] > 0
    ensures h in Cids(newLinks) <==> multiset(Cids(newLinks))[h] > 0
    ensures h in Cids(oldLinks) <==> multiset(Cids(oldLinks))[h] > 0
    ensures h in Dropped(oldLinks, newLinks) <==> multiset(Cids(oldLinks))[h] > 0 && multiset(Cids(newLinks))[h] == 0
  {
    hide Cids;
  }

  lemma CountArithmetic(before: nat, ext: nat, bag: nat, bag': nat, mo: nat, mn: nat, isNew: bool, isOld: bool,
                        released: bool, stored: bool, after: int, ext': nat)
    requires before == ext + bag && mo <= bag
    requires bag' + (if released then mo else 0) + (if stored then mn else 0) == bag + mn
    requires isNew ==> mo == 0 && mn == 0 && !isOld
    requires isOld ==> ext > 0 && mo == 0 && mn == 0
    requires ext' == ext - One(isOld) + One(isNew)
    requires after == if isNew then before + 1 else if isOld then before - 1
                      else Minus(before + One(mn > 0) - One(mo > 0 && mn == 0), if released then mo else 0)
    ensures after == ext' + bag' <==>
              (mn > 0 ==> !stored && mn == 1) && (mo > 0 && mn == 0 ==> released && before == mo)
  {}

  lemma OldLinksCounted(p: Docs, orig: Option<Multihash>, oldLinks: seq<Link>, h: Multihash)
    requires orig.Some? ==> orig.value in p && LinksOf(p[orig.value]) == Cids(oldLinks)
    requires orig.None? ==> oldLinks == []
    ensures multiset(Cids(oldLinks))[h] <= Bag(p, p.Keys)[h]
  {
    if orig.Some? { BagTake(p, p.Keys, orig.value); }
  }

  /** Replacing a root keeps all counts exact exactly when the guard holds. */
  lemma ReplaceIsExact(r: Replacement, ext: multiset<Multihash>)
    requires Start(r)
    requires Exact(r.p, ext) && (r.orig.Some? ==> r.orig.value in ext)
    ensures Exact(Replaced(r.p1, r.orig, r.rank), Reassigned(ext, r.orig, r.newRoot)) <==>
              KeepsCounts(r.p, r.newRoot, r.orig, r.oldLinks, r.newLinks)
  {
    hide *;
    StartFacts(r);
    var q, e := Replaced(r.p1, r.orig, r.rank), Reassigned(ext, r.orig, r.newRoot);
    DuplicateFreeCounts(Cids(r.newLinks));
    CountsAfter(r, r.newRoot);
    forall h: Multihash
      ensures Refs(q, h) == e[h] + Bag(q, q.Keys)[h] <==> CountKept(r.p, r.newRoot, r.orig, r.oldLinks, r.newLinks, h)
    {
      CountIsExact(r, ext, h);
    }
    EveryCount(r.p, q, r.newRoot, r.orig, r.oldLinks, r.newLinks, e);
  }

  lemma NoCids(links: seq<Link>)
    ensures links == [] <==> forall h :: h !in Cids(links)
  {
    if links != [] { assert Cids(links)[0] in Cids(links); }
  }

  ghost predicate CountKept(p: Docs, newRoot: Multihash, orig: Option<Multihash>, oldLinks: seq<Link>,
                            newLinks: seq<Link>, h: Multihash) {
    (h in Cids(newLinks) ==> !StoredBefore(p, newRoot) && multiset(Cids(newLinks))[h] == 1) &&
    (h in Dropped(oldLinks, newLinks) ==> Released(p, orig) && Refs(p, h) == multiset(Cids(oldLinks))[h])
  }

  lemma EveryCount(p: Docs, q: Docs, newRoot: Multihash, orig: Option<Multihash>, oldLinks: seq<Link>,
                   newLinks: seq<Link>, e: multiset<Multihash>)
    requires forall h :: Refs(q, h) == e[h] + Bag(q, q.Keys)[h] <==> CountKept(p, newRoot, orig, oldLinks, newLinks, h)
    requires Positive(q)
    requires NoDuplicates(Cids(newLinks)) <==> forall x :: x in Cids(newLinks) ==> multiset(Cids(newLinks))[x] == 1
    ensures Exact(q, e) <==> KeepsCounts(p, newRoot, orig, oldLinks, newLinks)
  {
    hide Bag, NoDuplicates, Cids, Dropped, Released;
    assert q.Keys - {} == q.Keys;
    NoCids(newLinks);
    if KeepsCounts(p, newRoot, orig, oldLinks, newLinks) {
      forall h: Multihash ensures Refs(q, h) == e[h] + Bag(q, q.Keys)[h] {
        assert CountKept(p, newRoot, orig, oldLinks, newLinks, h);
      }
    }
    if Exact(q, e) {
      forall h: Multihash ensures CountKept(p, newRoot, orig, oldLinks, newLinks, h) {
        assert Refs(q, h) == e[h] + Bag(q, q.Keys - {})[h];
      }
      forall x | x in Cids(newLinks) ensures !StoredBefore(p, newRoot) && multiset(Cids(newLinks))[x] == 1 {
        assert CountKept(p, newRoot, orig, oldLinks, newLinks, x);
      }
      forall l | l in Dropped(oldLinks, newLinks)
        ensures Released(p, orig) && Refs(p, l) == multiset(Cids(oldLinks))[l]
      {
        assert CountKept(p, newRoot, orig, oldLinks, newLinks, l);
      }
    }
  }

  // ---- Losing a document that is still linked ---------------------------------------------------------------

  /** A document with links of its own is no link of either root, so that its count is exact. */
  lemma LinkDocCounted(r: Replacement, ext: multiset<Multihash>, x: Multihash)
    requires Start(r) && Exact(r.p, ext) && (r.orig.Some? ==> r.orig.value in ext)
    requires x in Replaced(r.p1, r.orig, r.rank) && LinksOf(Replaced(r.p1, r.orig, r.rank)[x]) != []
    ensures
      var q, e := Replaced(r.p1, r.orig, r.rank), Reassigned(ext, r.orig, r.newRoot);
      e[x] + Bag(q, q.Keys)[x] > 0
  {
    hide Bag, CborReplace, RootAdded, Exact, Replaced, Reassigned;
    CountsAfter(r, x);
    AfterUpdate(r, x);
    assert x !in Cids(r.newLinks) && x !in Dropped(r.oldLinks, r.newLinks);
    CountIsExact(r, ext, x);
  }

  /** Every document with links is counted on by somebody. */
  ghost predicate LinkersCounted(q: Docs, e: multiset<Multihash>) {
    forall x :: x in q && LinksOf(q[x]) != [] ==> e[x] + Bag(q, q.Keys)[x] > 0
  }

  lemma {:induction false} LinkerIsReachable(q: Docs, e: multiset<Multihash>, rank: Rank, x: Multihash)
    returns (path: seq<Multihash>)
    requires LinkersCounted(q, e) && Ranked(q, rank) && x in q && LinksOf(q[x]) != []
    ensures Path(q, path) && path[0] in e && path[|path| - 1] == x
    decreases Above(q, rank, rank(x))
  {
    hide Bag, LinksOf, Above;
    assert e[x] + Bag(q, q.Keys)[x] > 0;
    if x in e {
      path := [x];
    } else {
      var parent := BagHas(q, q.Keys, x);
      assert LinksBelow(q[parent], rank, rank(parent));
      HigherRank(q, rank, parent, x);
      var up := LinkerIsReachable(q, e, rank, parent);
      path := LongerPath(q, up, x);
    }
  }

  lemma LongerPath(q: Docs, up: seq<Multihash>, x: Multihash) returns (path: seq<Multihash>)
    requires Path(q, up) && up[|up| - 1] in q && x in LinksOf(q[up[|up| - 1]])
    ensures Path(q, path) && path[0] == up[0] && path[|path| - 1] == x
  {
    path := up + [x];
    forall i | 0 <= i < |path| - 1 ensures path[i] in q && path[i + 1] in LinksOf(q[path[i]]) {
      assert i < |up| - 1 ==> up[i] in q && up[i + 1] in LinksOf(q[up[i]]);
    }
  }

  /** A document that is gone is still reached exactly if somebody still counts on it. */
  lemma StillWanted(q: Docs, e: multiset<Multihash>, rank: Rank, h: Multihash)
    requires LinkersCounted(q, e) && Ranked(q, rank) && h !in q
    ensures Reachable(q, e, h) <==> e[h] + Bag(q, q.Keys)[h] > 0
  {
    hide Bag, LinksOf, LinkersCounted, Ranked;
    if Reachable(q, e, h) {
      var path :| Path(q, path) && path[0] in e && path[|path| - 1] == h;
      if |path| > 1 {
        var x := path[|path| - 2];
        assert x in q && path[|path| - 2 + 1] in LinksOf(q[x]);
        BagTake(q, q.Keys, x);
      }
    }
    if h in e {
      assert Path(q, [h]);
    } else if h in Bag(q, q.Keys) {
      var x := BagHas(q, q.Keys, h);
      var up := LinkerIsReachable(q, e, rank, x);
      var path := LongerPath(q, up, h);
    }
  }

  lemma LinkersStay(r: Replacement, ext: multiset<Multihash>)
    requires Start(r) && Exact(r.p, ext) && (r.orig.Some? ==> r.orig.value in ext)
    ensures LinkersCounted(Replaced(r.p1, r.orig, r.rank), Reassigned(ext, r.orig, r.newRoot))
    ensures Ranked(Replaced(r.p1, r.orig, r.rank), r.rank)
  {
    var q, e := Replaced(r.p1, r.orig, r.rank), Reassigned(ext, r.orig, r.newRoot);
    hide Bag, LinksOf, CborReplace, RootAdded, Exact, Reassigned;
    assert Ranked(q, r.rank);
    forall x | x in q && LinksOf(q[x]) != [] ensures e[x] + Bag(q, q.Keys)[x] > 0 { LinkDocCounted(r, ext, x); }
  }

  /** The new root drops a link to `h`, and besides the links that go with the old root there is just one more
      reference to it. */
  ghost predicate LosesLink(p: Docs, orig: Option<Multihash>, oldLinks: seq<Link>, newLinks: seq<Link>, h: Multihash) {
    h in Dropped(oldLinks, newLinks) &&
    Refs(p, h) == 1 + if Released(p, orig) then multiset(Cids(oldLinks))[h] else 0
  }

  /** When the wrong counts do harm: the replacement deletes a document that a remaining reference still
      reaches exactly if it is the last other reference that the dropped link takes. */
  lemma ReplaceLosesIff(r: Replacement, ext: multiset<Multihash>, h: Multihash)
    requires Start(r) && Exact(r.p, ext) && (r.orig.Some? ==> r.orig.value in ext)
    ensures
      var q, e := Replaced(r.p1, r.orig, r.rank), Reassigned(ext, r.orig, r.newRoot);
      h !in q && Reachable(q, e, h) <==> LosesLink(r.p, r.orig, r.oldLinks, r.newLinks, h)
  {
    hide *;
    StartFacts(r);
    LosesLinkIs(r.p, r.orig, r.oldLinks, r.newLinks, h);
    var q := Replaced(r.p1, r.orig, r.rank);
    LinkersStay(r, ext);
    if h !in q { StillWanted(q, Reassigned(ext, r.orig, r.newRoot), r.rank, h); }
    CountsAfter(r, h);
    BagAfter(r);
    OldLinksCounted(r.p, r.orig, r.oldLinks, h);
    ExactCount(r.p, ext, h);
    Reassignment(ext, r.orig, r.newRoot, h);
    LinkSets(r.oldLinks, r.newLinks, h);
    AfterUpdate(r, h);
    CountedIsStored(q, h);
    var mo, mn := multiset(Cids(r.oldLinks)), multiset(Cids(r.newLinks));
    var stored := if StoredBefore(r.p, r.newRoot) then mn else multiset{};
    assert (Bag(q, q.Keys) + (if Released(r.p, r.orig) then mo else multiset{}) + stored)[h] ==
           (Bag(r.p, r.p.Keys) + mn)[h];
    LossArithmetic(Refs(r.p, h), ext[h], Bag(r.p, r.p.Keys)[h], Bag(q, q.Keys)[h], mo[h], mn[h],
                   h == r.newRoot, Some(h) == r.orig, Released(r.p, r.orig),
                   StoredBefore(r.p, r.newRoot), Refs(q, h), Reassigned(ext, r.orig, r.newRoot)[h]);
  }

  lemma LosesLinkIs(p: Docs, orig: Option<Multihash>, oldLinks: seq<Link>, newLinks: seq<Link>, h: Multihash)
    ensures LosesLink(p, orig, oldLinks, newLinks, h) <==>
            h in Dropped(oldLinks, newLinks) &&
            Refs(p, h) == 1 + if Released(p, orig) then multiset(Cids(oldLinks))[h] else 0
  {}

  lemma CountedIsStored(q: Docs, h: Multihash)
    ensures Positive(q) ==> (h in q <==> Refs(q, h) > 0)
  {}

  lemma LossArithmetic(before: nat, ext: nat, bag: nat, bag': nat, mo: nat, mn: nat, isNew: bool, isOld: bool,
                       released: bool, stored: bool, after: int, ext': nat)
    requires before == ext + bag && mo <= bag
    requires bag' + (if released then mo else 0) + (if stored then mn else 0) == bag + mn
    requires isNew ==> mo == 0 && mn == 0 && !isOld
    requires isOld ==> ext > 0 && mo == 0 && mn == 0
    requires ext' == ext - One(isOld) + One(isNew)
    requires after == if isNew then before + 1 else if isOld then before - 1
                      else Minus(before + One(mn > 0) - One(mo > 0 && mn == 0), if released then mo else 0)
    ensures after == 0 && ext' + bag' > 0 <==> mo > 0 && mn == 0 && before == 1 + if released then mo else 0
  {}

  /** Two roots link to the same document, one of them is replaced by a root without links: the document is
      deleted although the other root still links to it. */
  function SharedLink(o: Multihash, r: Multihash, l: Multihash, n: Multihash): Replacement {
    var shared := Cbor([Link(l, 0x55)]);
    Replacement(
      map[o := DocWithRefs(Some(shared), 1), r := DocWithRefs(Some(shared), 1), l := DocWithRefs(Some(Raw), 2)],
      map[o := DocWithRefs(Some(shared), 1), r := DocWithRefs(Some(shared), 1), l := DocWithRefs(Some(Raw), 1),
          n := DocWithRefs(Some(Cbor([])), 1)],
      map[n := Cbor([])], n, Some(o), (h: Multihash) => if h == l then 0 else 1, [Link(l, 0x55)], [])
  }

  ghost predicate Different(o: Multihash, r: Multihash, l: Multihash, n: Multihash) {
    o != r && o != l && o != n && r != l && r != n && l != n
  }

  lemma SharedLinkBlocks(o: Multihash, r: Multihash, l: Multihash, n: Multihash)
    requires Different(o, r, l, n)
    ensures
      var x := SharedLink(o, r, l, n);
      Cids(x.oldLinks) == [l] && Cids(x.newLinks) == [] && OldLinks(x.p, Some(o)) == x.oldLinks &&
      LinksOf(x.p[o]) == LinksOf(x.p[r]) == [l] && LinksOf(x.p[l]) == [] &&
      Gained(x.newLinks) == {} && Dropped(x.oldLinks, x.newLinks) == {l} &&
      x.p.Keys == {o, r, l} && x.p1.Keys == {o, r, l, n}
  {
    var x := SharedLink(o, r, l, n);
    assert Cids(x.oldLinks) == [l];
    assert Dropped(x.oldLinks, x.newLinks) == {l};
  }

  lemma SharedLinkRanked(o: Multihash, r: Multihash, l: Multihash, n: Multihash)
    requires Different(o, r, l, n)
    ensures Ranked(SharedLink(o, r, l, n).p, SharedLink(o, r, l, n).rank)
  {
    hide Cids, LinksOf, OldLinks, Gained, Dropped;
    var x := SharedLink(o, r, l, n);
    SharedLinkBlocks(o, r, l, n);
    forall h | h in x.p ensures LinksBelow(x.p[h], x.rank, x.rank(h)) {
      assert h in {o, r, l};
    }
  }

  lemma SharedLinkRankedAfter(o: Multihash, r: Multihash, l: Multihash, n: Multihash)
    requires Different(o, r, l, n)
    ensures Ranked(SharedLink(o, r, l, n).p1, SharedLink(o, r, l, n).rank)
  {
    hide Cids, LinksOf, OldLinks, Gained, Dropped;
    var x := SharedLink(o, r, l, n);
    SharedLinkBlocks(o, r, l, n);
    SharedLinkRanked(o, r, l, n);
    NoLinks(x.p1[n]);
    forall h | h in x.p1 ensures LinksBelow(x.p1[h], x.rank, x.rank(h)) {
      if h != n { SameLinks(x.p1[h], x.p[h], x.rank, x.rank(h)); }
    }
  }

  lemma SharedLinkCaller(o: Multihash, r: Multihash, l: Multihash, n: Multihash)
    requires Different(o, r, l, n)
    ensures
      var x := SharedLink(o, r, l, n);
      CborReplace(x.p, x.dataset, n, Some(o), x.rank)
  {
    hide Cids, LinksOf, OldLinks, Gained, Dropped, Ranked;
    SharedLinkBlocks(o, r, l, n);
    SharedLinkRanked(o, r, l, n);
  }

  lemma NoLinks(d: DocWithRefs<Block>)
    requires d.data == Some(Cbor([]))
    ensures LinksOf(d) == []
  {}

  lemma SharedLinkRecounted(o: Multihash, r: Multihash, l: Multihash, n: Multihash)
    requires Different(o, r, l, n)
    ensures
      var x := SharedLink(o, r, l, n);
      Recounted(x.p - {n}, x.p1 - {n}, {}, {l})
  {
    var x := SharedLink(o, r, l, n);
    assert x.p - {n} == x.p;
    assert x.p1 - {n} == map[o := x.p[o], r := x.p[r], l := DocWithRefs(Some(Raw), 1)];
  }

  lemma SharedLinkStarts(o: Multihash, r: Multihash, l: Multihash, n: Multihash)
    requires Different(o, r, l, n)
    ensures Start(SharedLink(o, r, l, n))
  {
    hide CborReplace, Recounted, Cids, LinksOf, OldLinks, Gained, Dropped, Ranked;
    SharedLinkBlocks(o, r, l, n);
    SharedLinkCaller(o, r, l, n);
    SharedLinkRankedAfter(o, r, l, n);
    SharedLinkRecounted(o, r, l, n);
  }

  lemma SharedLinkCounts(o: Multihash, r: Multihash, l: Multihash, n: Multihash)
    requires Different(o, r, l, n)
    ensures Exact(SharedLink(o, r, l, n).p, multiset{o, r})
  {
    hide Bag, LinksOf, Cids, OldLinks, Gained, Dropped;
    var p := SharedLink(o, r, l, n).p;
    SharedLinkBlocks(o, r, l, n);
    BagTake(p, {o, r, l}, o);
    assert {o, r, l} - {o} == {r, l} && {r, l} - {r} == {l} && {l} - {l} == {};
    BagTake(p, {r, l}, r);
    BagTake(p, {l}, l);
    EmptyBag(p);
    assert p.Keys - {} == {o, r, l};
    assert Bag(p, p.Keys - {}) == multiset{l, l};
  }

  lemma EmptyBag(p: Docs)
    ensures Bag(p, {}) == multiset{}
  {}

  lemma SharedLinkIsLost(o: Multihash, r: Multihash, l: Multihash, n: Multihash)
    requires Different(o, r, l, n)
    ensures
      var x, ext := SharedLink(o, r, l, n), multiset{o, r};
      Start(x) && Exact(x.p, ext) && !KeepsCounts(x.p, x.newRoot, x.orig, x.oldLinks, x.newLinks) &&
      var q := Replaced(x.p1, x.orig, x.rank);
      l !in q && r in q && l in LinksOf(q[r]) && Reachable(q, Reassigned(ext, x.orig, n), l)
  {
    hide Start, Exact, Replaced, Cids, LinksOf, Bag, Gained, Dropped, OldLinks, NoDuplicates;
    var x, ext := SharedLink(o, r, l, n), multiset{o, r};
    SharedLinkBlocks(o, r, l, n);
    SharedLinkStarts(o, r, l, n);
    SharedLinkCounts(o, r, l, n);
    assert l in Dropped(x.oldLinks, x.newLinks) && Refs(x.p, l) == 2 && Released(x.p, x.orig);
    assert multiset(Cids(x.oldLinks))[l] == 1;
    ReplaceLosesIff(x, ext, l);
    StartFacts(x);
    OtherRootStays(x, r);
  }

  /** An account takes the content that another account has already: the only link gets a second reference. */
  function SameRoot(n: Multihash, l: Multihash): Replacement {
    var root := Cbor([Link(l, 0x55)]);
    Replacement(
      map[n := DocWithRefs(Some(root), 1), l := DocWithRefs(Some(Raw), 1)],
      map[n := DocWithRefs(Some(root), 2), l := DocWithRefs(Some(Raw), 2)],
      map[n := root], n, None, (h: Multihash) => if h == l then 0 else 1, [], [Link(l, 0x55)])
  }

  lemma SameRootBlocks(n: Multihash, l: Multihash)
    requires n != l
    ensures
      var x := SameRoot(n, l);
      Cids(x.newLinks) == [l] && Cids(x.oldLinks) == [] && LinksOf(x.p[n]) == LinksOf(x.p1[n]) == [l] &&
      LinksOf(x.p[l]) == LinksOf(x.p1[l]) == [] && Gained(x.newLinks) == {l} &&
      Dropped(x.oldLinks, x.newLinks) == {} && x.p.Keys == x.p1.Keys == {n, l}
  {
    var x := SameRoot(n, l);
    assert Cids(x.newLinks) == [l];
    assert Gained(x.newLinks) == {l};
  }

  lemma SameRootRanked(n: Multihash, l: Multihash)
    requires n != l
    ensures Ranked(SameRoot(n, l).p, SameRoot(n, l).rank) && Ranked(SameRoot(n, l).p1, SameRoot(n, l).rank)
  {
    hide Cids, LinksOf, Gained, Dropped;
    var x := SameRoot(n, l);
    SameRootBlocks(n, l);
    forall h | h in x.p ensures LinksBelow(x.p[h], x.rank, x.rank(h)) { assert h in {n, l}; }
    forall h | h in x.p1 ensures LinksBelow(x.p1[h], x.rank, x.rank(h)) { assert h in {n, l}; }
  }

  lemma SameRootCaller(n: Multihash, l: Multihash)
    requires n != l
    ensures
      var x := SameRoot(n, l);
      CborReplace(x.p, x.dataset, n, None, x.rank) && Ranked(x.p1, x.rank)
  {
    hide Cids, LinksOf, Gained, Dropped, Ranked;
    SameRootBlocks(n, l);
    SameRootRanked(n, l);
  }

  lemma SameRootRecounted(n: Multihash, l: Multihash)
    requires n != l
    ensures
      var x := SameRoot(n, l);
      RootAdded(x.p, x.p1, x.dataset, n, [], x.newLinks)
  {
    hide Cids, LinksOf, Gained, Dropped;
    var x := SameRoot(n, l);
    SameRootBlocks(n, l);
    assert x.p - {n} == map[l := x.p[l]] && x.p1 - {n} == map[l := x.p1[l]];
    assert Recounted(x.p - {n}, x.p1 - {n}, {l}, {});
  }

  lemma SameRootStarts(n: Multihash, l: Multihash)
    requires n != l
    ensures Start(SameRoot(n, l))
  {
    hide CborReplace, RootAdded, Ranked;
    SameRootCaller(n, l);
    SameRootRecounted(n, l);
  }

  lemma SameRootCounts(n: Multihash, l: Multihash)
    requires n != l
    ensures Exact(SameRoot(n, l).p, multiset{n})
  {
    hide Bag, LinksOf, Cids, Gained, Dropped;
    var p := SameRoot(n, l).p;
    SameRootBlocks(n, l);
    BagTake(p, {n, l}, n);
    assert {n, l} - {n} == {l} && {l} - {l} == {};
    BagTake(p, {l}, l);
    EmptyBag(p);
    assert p.Keys - {} == {n, l};
    assert Bag(p, p.Keys - {}) == multiset{l};
  }

  lemma SameRootTwice(n: Multihash, l: Multihash)
    requires n != l
    ensures
      var x, ext := SameRoot(n, l), multiset{n};
      Start(x) && Exact(x.p, ext) && !KeepsCounts(x.p, x.newRoot, x.orig, x.oldLinks, x.newLinks) &&
      !Exact(Replaced(x.p1, x.orig, x.rank), Reassigned(ext, x.orig, n))
  {
    hide Start, Exact, Replaced, Reassigned, NoDuplicates, Dropped;
    var x := SameRoot(n, l);
    SameRootStarts(n, l);
    SameRootCounts(n, l);
    assert StoredBefore(x.p, n);
    ReplaceIsExact(x, multiset{n});
  }

  /** A root that is neither of the two keeps its count and its links. */
  lemma OtherRootStays(r: Replacement, h: Multihash)
    requires Start(r) && h in r.p && h != r.newRoot && Some(h) != r.orig && LinksOf(r.p[h]) != []
    ensures
      var q := Replaced(r.p1, r.orig, r.rank);
      h in q && LinksOf(q[h]) == LinksOf(r.p[h])
  {
    AfterUpdate(r, h);
    CountsAfter(r, h);
    hide Replaced, CborReplace, RootAdded;
    assert h !in Gained(r.newLinks) && h !in Dropped(r.oldLinks, r.newLinks) && h !in Cids(r.oldLinks);
  }

  /** The two calls as ValidateAndSave makes them when the root hash has changed. */
  method ReplaceRoot(store: DocStore<Block>, dataset: Dataset, newMultihash: Multihash,
                     origMultihash: Option<Multihash>,
                     ghost rank: Rank, ghost ext: multiset<Multihash>)
    returns (status: UpdateStatus)
    requires CborReplace(store.pastes, dataset, newMultihash, origMultihash, rank)
    requires Exact(store.pastes, ext) && (origMultihash.Some? ==> origMultihash.value in ext)
    modifies store
    ensures
      ghost var p := old(store.pastes);
      status.Updated? ==>
        (Exact(store.pastes, Reassigned(ext, origMultihash, newMultihash)) <==>
         KeepsCounts(p, newMultihash, origMultihash, OldLinks(p, origMultihash), dataset[newMultihash].links))
    ensures
      ghost var p := old(store.pastes);
      status.Updated? ==>
        forall h ::
          h !in store.pastes && Reachable(store.pastes, Reassigned(ext, origMultihash, newMultihash), h) <==>
          LosesLink(p, origMultihash, OldLinks(p, origMultihash), dataset[newMultihash].links, h)
  {
    ghost var p := store.pastes;
    status := UpdateRoot(store, dataset, newMultihash, origMultihash, rank);
    if status.Updated? {
      ReplaceEffect(Replacement(p, store.pastes, dataset, newMultihash, origMultihash, rank,
                                OldLinks(p, origMultihash), dataset[newMultihash].links), ext);
      if origMultihash.Some? {
        RecursiveRemove(store, origMultihash.value, rank);
      }
    }
  }

  lemma ReplaceEffect(r: Replacement, ext: multiset<Multihash>)
    requires Start(r) && Exact(r.p, ext) && (r.orig.Some? ==> r.orig.value in ext)
    ensures Exact(Replaced(r.p1, r.orig, r.rank), Reassigned(ext, r.orig, r.newRoot)) <==>
            KeepsCounts(r.p, r.newRoot, r.orig, r.oldLinks, r.newLinks)
    ensures
      var q := Replaced(r.p1, r.orig, r.rank);
      forall h :: h !in q && Reachable(q, Reassigned(ext, r.orig, r.newRoot), h) <==>
                  LosesLink(r.p, r.orig, r.oldLinks, r.newLinks, h)
  {
    hide *;
    StartFacts(r);
    ReplaceIsExact(r, ext);
    var q := Replaced(r.p1, r.orig, r.rank);
    forall h: Multihash
      ensures h !in q && Reachable(q, Reassigned(ext, r.orig, r.newRoot), h) <==>
              LosesLink(r.p, r.orig, r.oldLinks, r.newLinks, h)
    {
      ReplaceLosesIff(r, ext, h);
    }
  }
}
