/** ipldwalk/ipldwalk.go: reference-counting collection of linked documents. */
module IpldWalk {
  import opened Basics
  import opened DocStores

  const DAG_CBOR: nat := 113

  /** A link names a document and claims its codec; only documents that decode as dag-cbor have links. */
  datatype Link = Link(cid: Multihash, codec: nat)
  datatype Block = Raw | Cbor(links: seq<Link>)
  type Docs = Pastes<Block>

  /** Content addressing rules out cycles; the rank is a witness of that. */
  type Rank = Multihash -> nat

  function Cids(links: seq<Link>): seq<Multihash> {
    seq(|links|, i requires 0 <= i < |links| => links[i].cid)
  }

  function LinksOf(d: DocWithRefs<Block>): seq<Multihash> {
    if d.data.Some? && d.data.value.Cbor? then Cids(d.data.value.links) else []
  }

  ghost predicate LinksBelow(d: DocWithRefs<Block>, rank: Rank, r: nat) {
    forall l :: l in LinksOf(d) ==> rank(l) < r
  }

  ghost predicate Ranked(p: Docs, rank: Rank) {
    forall h :: h in p ==> LinksBelow(p[h], rank, rank(h))
  }

  /** Documents may have lost references or be gone; from rank `r` on nothing has changed. */
  ghost predicate Shrunk(p: Docs, q: Docs, rank: Rank, r: nat) {
    (forall h :: h in q ==> h in p && q[h].data == p[h].data) &&
    (forall h {:trigger rank(h)} :: rank(h) >= r ==> Get(q, h) == Get(p, h))
  }

  /** RecursiveRemove. */
  ghost function Collected(p: Docs, h: Multihash, rank: Rank): (q: Docs)
    requires Ranked(p, rank)
    ensures Ranked(q, rank) && Shrunk(p, q, rank, rank(h) + 1)
    decreases rank(h) + 1, 0
  {
    if h !in p then p
    else
      assert LinksBelow(p[h], rank, rank(h));
      var q := if p[h].refs == 1 then EachCollected(p, LinksOf(p[h]), rank, rank(h)) else p;
      RemovalShrinks(p, q, h, rank);
      RefRemoved(q, h)
  }

  lemma RemovalShrinks(p: Docs, q: Docs, h: Multihash, rank: Rank)
    requires Ranked(p, rank) && Shrunk(p, q, rank, rank(h))
    ensures Shrunk(p, RefRemoved(q, h), rank, rank(h) + 1)
    ensures Ranked(RefRemoved(q, h), rank)
  {
    hide LinksBelow;
    var s := RefRemoved(q, h);
    forall x | x in s ensures LinksBelow(s[x], rank, rank(x)) { SameLinks(s[x], p[x], rank, rank(x)); }
  }

  lemma SameLinks(d: DocWithRefs<Block>, e: DocWithRefs<Block>, rank: Rank, r: nat)
    requires d.data == e.data && LinksBelow(e, rank, r)
    ensures LinksBelow(d, rank, r)
  {}

  ghost function EachCollected(p: Docs, links: seq<Multihash>, rank: Rank, r: nat): (q: Docs)
    requires Ranked(p, rank) && forall l :: l in links ==> rank(l) < r
    ensures Ranked(q, rank) && Shrunk(p, q, rank, r)
    decreases r, |links|
  {
    if links == [] then p
    else EachCollected(Collected(p, links[0], rank), links[1..], rank, r)
  }

  // ---- Counting references ----------------------------------------------------------------------------

  function Refs(p: Docs, h: Multihash): nat {
    if h in p then p[h].refs else 0
  }

  /** All link occurrences in the documents `keys`. */
  ghost function Bag(p: Docs, keys: set<Multihash>): multiset<Multihash>
    requires keys <= p.Keys
  {
    if keys == {} then multiset{}
    else
      var h :| h in keys;
      multiset(LinksOf(p[h])) + Bag(p, keys - {h})
  }

  lemma {:induction false} BagTake(p: Docs, keys: set<Multihash>, x: Multihash)
    requires keys <= p.Keys && x in keys
    ensures Bag(p, keys) == multiset(LinksOf(p[x])) + Bag(p, keys - {x})
  {
    var h :| h in keys && Bag(p, keys) == multiset(LinksOf(p[h])) + Bag(p, keys - {h});
    if h != x {
      BagTake(p, keys - {h}, x);
      BagTake(p, keys - {x}, h);
      assert keys - {h} - {x} == keys - {x} - {h};
    }
  }

  lemma {:induction false} BagSame(p: Docs, q: Docs, keys: set<Multihash>)
    requires keys <= p.Keys && keys <= q.Keys
    requires forall h :: h in keys ==> LinksOf(q[h]) == LinksOf(p[h])
    ensures Bag(p, keys) == Bag(q, keys)
  {
    if h :| h in keys {
      BagTake(p, keys, h);
      BagTake(q, keys, h);
      BagSame(p, q, keys - {h});
    }
  }

  lemma {:induction false} BagSmaller(p: Docs, keys: set<Multihash>, more: set<Multihash>)
    requires keys <= more <= p.Keys
    ensures Bag(p, keys) <= Bag(p, more)
  {
    if keys != more {
      var h :| h in more && h !in keys;
      BagTake(p, more, h);
      BagSmaller(p, keys, more - {h});
    }
  }

  lemma {:induction false} BagHas(p: Docs, keys: set<Multihash>, x: Multihash) returns (h: Multihash)
    requires keys <= p.Keys && x in Bag(p, keys)
    ensures h in keys && x in LinksOf(p[h])
  {
    h :| h in keys;
    BagTake(p, keys, h);
    if x !in LinksOf(p[h]) { h := BagHas(p, keys - {h}, x); }
  }

  /** Exact counting: outside `busy`, every stored document has as many references as there are
      external ones plus link occurrences in stored documents. */
  ghost predicate Balanced(p: Docs, busy: set<Multihash>, ext: multiset<Multihash>) {
    forall h :: h !in busy ==>
      Refs(p, h) == ext[h] + Bag(p, p.Keys - busy)[h] && (h in p ==> p[h].refs > 0)
  }

  ghost predicate Exact(p: Docs, ext: multiset<Multihash>) {
    Balanced(p, {}, ext)
  }

  // ---- Collection keeps the counts exact --------------------------------------------------------------

  /** A document about to be deleted counts as gone; its links count as external references. */
  lemma OpenUp(p: Docs, busy: set<Multihash>, ext: multiset<Multihash>, h: Multihash)
    requires Balanced(p, busy, ext) && h !in busy && h in p && h in ext
    ensures Balanced(p, busy + {h}, ext - multiset{h} + multiset(LinksOf(p[h])))
  {
    BagTake(p, p.Keys - busy, h);
    assert p.Keys - busy - {h} == p.Keys - (busy + {h});
  }

  /** The same links, whichever collection steps happened among other documents. */
  lemma BagGone(p: Docs, h: Multihash, busy: set<Multihash>)
    requires h !in busy
    ensures Bag(p - {h}, (p - {h}).Keys - busy) == Bag(p, p.Keys - (busy + {h}))
  {
    assert (p - {h}).Keys - busy == p.Keys - (busy + {h});
    BagSame(p, p - {h}, p.Keys - (busy + {h}));
  }

  /** Deleting the opened document restores the balance without it. */
  lemma CloseDown(p: Docs, busy: set<Multihash>, ext: multiset<Multihash>, h: Multihash)
    requires Balanced(p, busy + {h}, ext) && h !in busy && h !in ext
    requires h !in Bag(p, p.Keys - (busy + {h}))
    ensures Balanced(p - {h}, busy, ext)
  {
    BagGone(p, h, busy);
  }

  lemma Decrement(p: Docs, busy: set<Multihash>, ext: multiset<Multihash>, h: Multihash)
    requires Balanced(p, busy, ext) && h !in busy && h in p && h in ext && p[h].refs > 1
    ensures Balanced(RefRemoved(p, h), busy, ext - multiset{h})
  {
    hide RefRemoved, Bag, LinksOf;
    var q := RefRemoved(p, h);
    OneLess(p, h);
    assert q.Keys - busy == p.Keys - busy;
    BagSame(p, q, p.Keys - busy);
    forall x | x !in busy
      ensures Refs(q, x) == (ext - multiset{h})[x] + Bag(q, q.Keys - busy)[x] && (x in q ==> q[x].refs > 0)
    {
      assert Refs(p, x) == ext[x] + Bag(p, p.Keys - busy)[x];
    }
  }

  lemma OneLess(p: Docs, h: Multihash)
    requires h in p && p[h].refs > 1
    ensures RefRemoved(p, h) == p[h := p[h].(refs := p[h].refs - 1)]
    ensures forall x :: x in p ==> LinksOf(RefRemoved(p, h)[x]) == LinksOf(p[x])
  {
  }

  /** Collecting one referenced document keeps the balance, with one reference to it less. */
  lemma {:induction false} CollectBalanced(p: Docs, h: Multihash, rank: Rank, busy: set<Multihash>,
                                           ext: multiset<Multihash>)
    requires Ranked(p, rank) && Balanced(p, busy, ext) && h !in busy && h in ext
    requires forall b :: b in busy ==> rank(b) > rank(h)
    ensures Balanced(Collected(p, h, rank), busy, ext - multiset{h})
    decreases rank(h) + 1, 0
  {
    CollectedIs(p, h, rank);
    assert Refs(p, h) == ext[h] + Bag(p, p.Keys - busy)[h];
    hide Balanced, Ranked, Collected, EachCollected, Shrunk, LinksOf, Bag;
    if p[h].refs > 1 {
      Decrement(p, busy, ext, h);
    } else {
      var links, rest := LinksOf(p[h]), ext - multiset{h};
      OpenUp(p, busy, ext, h);
      EachBalanced(p, links, rank, rank(h), busy + {h}, rest);
      var q := EachCollected(p, links, rank, rank(h));
      LastReference(q, h);
      OnlyReference(p, q, rank, busy, ext, h);
      CloseDown(q, busy, rest, h);
    }
  }

  lemma CollectedIs(p: Docs, h: Multihash, rank: Rank)
    requires Ranked(p, rank) && h in p
    ensures forall l :: l in LinksOf(p[h]) ==> rank(l) < rank(h)
    ensures p[h].refs != 1 ==> Collected(p, h, rank) == RefRemoved(p, h)
    ensures p[h].refs == 1 ==>
              Shrunk(p, EachCollected(p, LinksOf(p[h]), rank, rank(h)), rank, rank(h)) &&
              Collected(p, h, rank) == RefRemoved(EachCollected(p, LinksOf(p[h]), rank, rank(h)), h)
  {
    assert LinksBelow(p[h], rank, rank(h));
  }

  lemma LastReference(q: Docs, h: Multihash)
    ensures h in q && q[h].refs == 1 ==> RefRemoved(q, h) == q - {h}
  {}

  /** The last reference was the one being removed: no other document links here. */
  lemma OnlyReference(p: Docs, q: Docs, rank: Rank, busy: set<Multihash>, ext: multiset<Multihash>, h: Multihash)
    requires Balanced(p, busy, ext) && h !in busy && h in ext && h in p && p[h].refs == 1
    requires Shrunk(p, q, rank, rank(h))
    ensures h !in ext - multiset{h} && h !in Bag(q, q.Keys - (busy + {h}))
    ensures Get(q, h) == Get(p, h)
  {
    assert Refs(p, h) == ext[h] + Bag(p, p.Keys - busy)[h];
    var keys := q.Keys - (busy + {h});
    BagSame(p, q, keys);
    BagSmaller(p, keys, p.Keys - busy);
  }

  lemma {:induction false} EachBalanced(p: Docs, links: seq<Multihash>, rank: Rank, r: nat, busy: set<Multihash>,
                                        ext: multiset<Multihash>)
    requires Ranked(p, rank) && forall l :: l in links ==> rank(l) < r
    requires Balanced(p, busy, ext + multiset(links)) && forall b :: b in busy ==> rank(b) >= r
    ensures Balanced(EachCollected(p, links, rank, r), busy, ext)
    decreases r, |links|
  {
    if links != [] {
      assert links == [links[0]] + links[1..];
      CollectBalanced(p, links[0], rank, busy, ext + multiset(links));
      assert ext + multiset(links) - multiset{links[0]} == ext + multiset(links[1..]);
      EachBalanced(Collected(p, links[0], rank), links[1..], rank, r, busy, ext);
    } else {
      assert ext + multiset(links) == ext;
    }
  }

  // ---- Live means reachable ---------------------------------------------------------------------------

  /** A chain of links through stored documents. */
  ghost predicate Path(p: Docs, path: seq<Multihash>) {
    path != [] && forall i :: 0 <= i < |path| - 1 ==> path[i] in p && path[i + 1] in LinksOf(p[path[i]])
  }

  ghost predicate Reachable(p: Docs, ext: multiset<Multihash>, h: Multihash) {
    exists path :: Path(p, path) && path[0] in ext && path[|path| - 1] == h
  }

  lemma LinkedIsLive(p: Docs, ext: multiset<Multihash>, h: Multihash, l: Multihash)
    requires Exact(p, ext) && h in p && l in LinksOf(p[h])
    ensures l in p
  {
    assert p.Keys - {} == p.Keys;
    BagTake(p, p.Keys, h);
    assert Refs(p, l) == ext[l] + Bag(p, p.Keys)[l];
  }

  lemma {:induction false} ReachableIsLive(p: Docs, ext: multiset<Multihash>, path: seq<Multihash>)
    requires Exact(p, ext) && Path(p, path) && path[0] in ext
    ensures path[|path| - 1] in p
    decreases |path|
  {
    if |path| == 1 {
      assert Refs(p, path[0]) == ext[path[0]] + Bag(p, p.Keys - {})[path[0]];
    } else {
      var init := path[..|path| - 1];
      assert Path(p, init) by {
        forall i | 0 <= i < |init| - 1 ensures init[i] in p && init[i + 1] in LinksOf(p[init[i]]) {
          assert path[i] in p && path[i + 1] in LinksOf(p[path[i]]);
        }
      }
      ReachableIsLive(p, ext, init);
      assert path[|path| - 2] in p && path[|path| - 2 + 1] in LinksOf(p[path[|path| - 2]]);
      LinkedIsLive(p, ext, path[|path| - 2], path[|path| - 1]);
    }
  }

  ghost function Above(p: Docs, rank: Rank, r: nat): set<Multihash> {
    set h | h in p && rank(h) > r
  }

  lemma {:induction false} LiveIsReachable(p: Docs, ext: multiset<Multihash>, rank: Rank, h: Multihash)
    returns (path: seq<Multihash>)
    requires Exact(p, ext) && Ranked(p, rank) && h in p
    ensures Path(p, path) && path[0] in ext && path[|path| - 1] == h
    decreases Above(p, rank, rank(h))
  {
    assert p.Keys - {} == p.Keys;
    assert Refs(p, h) == ext[h] + Bag(p, p.Keys)[h];
    hide Bag, LinksOf, Balanced, Exact;
    if h in ext {
      path := [h];
    } else {
      var parent := BagHas(p, p.Keys, h);
      assert LinksBelow(p[parent], rank, rank(parent));
      HigherRank(p, rank, parent, h);
      var up := LiveIsReachable(p, ext, rank, parent);
      path := up + [h];
      forall i | 0 <= i < |path| - 1 ensures path[i] in p && path[i + 1] in LinksOf(p[path[i]]) {
        assert i < |up| - 1 ==> up[i] in p && up[i + 1] in LinksOf(p[up[i]]);
      }
    }
  }

  lemma HigherRank(p: Docs, rank: Rank, parent: Multihash, h: Multihash)
    requires parent in p && LinksBelow(p[parent], rank, rank(parent)) && h in LinksOf(p[parent])
    ensures Above(p, rank, rank(parent)) < Above(p, rank, rank(h))
  {
    assert parent in Above(p, rank, rank(h)) && parent !in Above(p, rank, rank(parent));
  }

  /** With exact counts and no cycles the stored documents are exactly the reachable ones. */
  lemma LiveMeansReachable(p: Docs, ext: multiset<Multihash>, rank: Rank, h: Multihash)
    requires Exact(p, ext) && Ranked(p, rank)
    ensures h in p <==> Reachable(p, ext, h)
  {
    if h in p {
      var path := LiveIsReachable(p, ext, rank, h);
    }
    if Reachable(p, ext, h) {
      var path :| Path(p, path) && path[0] in ext && path[|path| - 1] == h;
      ReachableIsLive(p, ext, path);
    }
  }

  /** Collection deletes exactly what the remaining references no longer reach, and keeps the counts
      exact: the survivors are the documents reachable, in the store as it was, from the remaining
      external references. */
  lemma CollectionIsExact(p: Docs, h: Multihash, rank: Rank, ext: multiset<Multihash>, x: Multihash)
    requires Ranked(p, rank) && Exact(p, ext) && h in ext
    ensures Exact(Collected(p, h, rank), ext - multiset{h})
    ensures x in Collected(p, h, rank) <==> Reachable(p, ext - multiset{h}, x)
    ensures x in Collected(p, h, rank) ==> Collected(p, h, rank)[x].data == p[x].data
  {
    CollectBalanced(p, h, rank, {}, ext);
    var q, rest := Collected(p, h, rank), ext - multiset{h};
    assert Ranked(q, rank) && Shrunk(p, q, rank, rank(h) + 1);
    LiveMeansReachable(q, rest, rank, x);
    hide Collected;
    if Reachable(q, rest, x) {
      var path :| Path(q, path) && path[0] in rest && path[|path| - 1] == x;
      OldPath(p, q, path, rank, rank(h) + 1);
    }
    if Reachable(p, rest, x) {
      var path :| Path(p, path) && path[0] in rest && path[|path| - 1] == x;
      SurvivingPath(p, q, path, rest, rank, rank(h) + 1);
    }
  }

  lemma OldPath(p: Docs, q: Docs, path: seq<Multihash>, rank: Rank, r: nat)
    requires Path(q, path) && Shrunk(p, q, rank, r)
    ensures Path(p, path)
  {}

  lemma {:induction false} SurvivingPath(p: Docs, q: Docs, path: seq<Multihash>, ext: multiset<Multihash>,
                                         rank: Rank, r: nat)
    requires Path(p, path) && path[0] in ext && Exact(q, ext) && Shrunk(p, q, rank, r)
    ensures Path(q, path) && path[|path| - 1] in q
    decreases |path|
  {
    if |path| == 1 {
      ReachableIsLive(q, ext, path);
    } else {
      var init := path[..|path| - 1];
      assert Path(p, init) by {
        forall i | 0 <= i < |init| - 1 ensures init[i] in p && init[i + 1] in LinksOf(p[init[i]]) {
          assert path[i] in p && path[i + 1] in LinksOf(p[path[i]]);
        }
      }
      SurvivingPath(p, q, init, ext, rank, r);
      var last := path[|path| - 2];
      assert last in p && path[|path| - 2 + 1] in LinksOf(p[last]);
      assert last in q && LinksOf(q[last]) == LinksOf(p[last]);
      LinkedIsLive(q, ext, last, path[|path| - 1]);
      forall i | 0 <= i < |path| - 1 ensures path[i] in q && path[i + 1] in LinksOf(q[path[i]]) {
        if i < |init| - 1 { assert init[i] in q && init[i + 1] in LinksOf(q[init[i]]); }
      }
    }
  }

  // ---- The code: RecursiveRemove ------------------------------------------------------------------------

  method RecursiveRemove(store: DocStore<Block>, multihash: Multihash, ghost rank: Rank)
    requires Ranked(store.pastes, rank)
    modifies store
    ensures store.pastes == Collected(old(store.pastes), multihash, rank)
    decreases rank(multihash)
  {
    hide Ranked, LinksOf, Shrunk, EachCollected, RefRemoved;
    ghost var p := store.pastes;
    var docWithRefs, success := store.Get(multihash);
    if !success {
      return;
    }
    CollectedIs(p, multihash, rank);
    if docWithRefs.refs == 1 {
      var links := Decode(docWithRefs);
      EachStart(p, links, rank, rank(multihash));
      for i := 0 to |links|
        invariant Ranked(store.pastes, rank)
        invariant forall l :: l in links ==> rank(l) < rank(multihash)
        invariant EachCollected(store.pastes, links[i..], rank, rank(multihash)) ==
                  EachCollected(p, links, rank, rank(multihash))
      {
        EachStep(store.pastes, links[i..], rank, rank(multihash));
        assert links[i..][1..] == links[i + 1..];
        RecursiveRemove(store, links[i], rank);
      }
      EachStart(store.pastes, links[|links|..], rank, rank(multihash));
    }
    store.RemoveRef(multihash);
  }

  /** cbornode.Decode and Links: a document that does not decode has no links. */
  method Decode(d: DocWithRefs<Block>) returns (links: seq<Multihash>)
    ensures links == LinksOf(d)
  {
    links := [];
    if d.data.Some? && d.data.value.Cbor? {
      links := Cids(d.data.value.links);
    }
  }

  lemma EachStart(p: Docs, links: seq<Multihash>, rank: Rank, r: nat)
    requires Ranked(p, rank) && forall l :: l in links ==> rank(l) < r
    ensures links == [] ==> EachCollected(p, links, rank, r) == p
    ensures links[0..] == links
  {}

  lemma EachStep(p: Docs, links: seq<Multihash>, rank: Rank, r: nat)
    requires Ranked(p, rank) && links != [] && forall l :: l in links ==> rank(l) < r
    ensures Ranked(Collected(p, links[0], rank), rank)
    ensures EachCollected(p, links, rank, r) == EachCollected(Collected(p, links[0], rank), links[1..], rank, r)
  {}
}
