/** merklehead/recurse.go (addItemRecursive) and merklehead/merklehead.go over the document store. */
module Merkleheads {
  import opened Basics
  import opened DocStores
  import opened MerkleTree
  import opened MerkleRemove

  /** A decoded merkle document is a string-keyed map whose values are timestamps or links. */
  datatype Value = Stamp(time: nat) | Link(cid: Multihash)
  type MerkleDoc = map<Tail, Value>

  function LeafDoc(m: Stamps): MerkleDoc {
    map k | k in m :: Stamp(m[k])
  }

  /** The document and the hash that stand for a tree. */
  function DocOf(hash: MerkleDoc -> Multihash, t: Tree): MerkleDoc
    decreases t, 0
  {
    match t
    case Leaf(m) => LeafDoc(m)
    case Node(kids) => map k | k in (set c | c in kids :: [c]) :: Link(HashOf(hash, kids[k[0]]))
  }

  function HashOf(hash: MerkleDoc -> Multihash, t: Tree): Multihash
    decreases t, 1
  {
    hash(DocOf(hash, t))
  }

  /** Every document of the tree is in the store. */
  ghost predicate Stored(hash: MerkleDoc -> Multihash, pastes: Pastes<MerkleDoc>, t: Tree) {
    Holds(pastes, HashOf(hash, t), DocOf(hash, t)) &&
    (t.Node? ==> forall c :: c in t.kids ==> Stored(hash, pastes, t.kids[c]))
  }

  /** What a peer reads when it follows links from `h` (the walk of test/lib/lib.go). */
  function Lookup(pastes: Pastes<MerkleDoc>, h: Multihash, k: Tail): Option<nat>
    decreases |k|
  {
    if h !in pastes || pastes[h].data.None? then None
    else
      var doc := pastes[h].data.value;
      if k in doc && doc[k].Stamp? then Some(doc[k].time)
      else if |k| > 0 && k[..1] in doc && doc[k[..1]].Link? then Lookup(pastes, doc[k[..1]].cid, k[1..])
      else None
  }

  // ---- Documents and trees ------------------------------------------------------------------------

  lemma BranchDoc(hash: MerkleDoc -> Multihash, kids: map<Nibble, Tree>, k: Tail)
    ensures k in DocOf(hash, Node(kids)) <==> |k| == 1 && k[0] in kids
    ensures k in DocOf(hash, Node(kids)) ==> DocOf(hash, Node(kids))[k] == Link(HashOf(hash, kids[k[0]]))
  {
    if |k| == 1 { assert k == [k[0]]; }
  }

  /** A reader who walks the store finds what is in the tree. */
  lemma {:induction false} LookupIsFind(hash: MerkleDoc -> Multihash, pastes: Pastes<MerkleDoc>, t: Tree, n: nat,
                                        k: Tail)
    requires Stored(hash, pastes, t) && WellFormed(t, n) && |k| == n
    ensures Lookup(pastes, HashOf(hash, t), k) == Find(t, k)
    decreases |k|
  {
    match t
    case Leaf(m) =>
      assert k !in m ==> (|k| > 0 && k[..1] in m ==> LeafDoc(m)[k[..1]].Stamp?);
    case Node(kids) =>
      BranchDoc(hash, kids, k);
      BranchDoc(hash, kids, k[..1]);
      if k[0] in kids { LookupIsFind(hash, pastes, kids[k[0]], n - 1, k[1..]); }
  }

  lemma StoredStays(hash: MerkleDoc -> Multihash, p: Pastes<MerkleDoc>, q: Pastes<MerkleDoc>, t: Tree)
    requires Stored(hash, p, t) && Grows(p, q)
    ensures Stored(hash, q, t)
  {}

  /** Every earlier root still reads back its old map. */
  lemma EarlierRootsStillRead(hash: MerkleDoc -> Multihash, p: Pastes<MerkleDoc>, q: Pastes<MerkleDoc>,
                             t: Tree, n: nat, k: Tail)
    requires Stored(hash, p, t) && Grows(p, q) && WellFormed(t, n) && |k| == n
    ensures Lookup(q, HashOf(hash, t), k) == Lookup(p, HashOf(hash, t), k) == Find(t, k)
  {
    hide *;
    StoredStays(hash, p, q, t);
    LookupIsFind(hash, p, t, n, k);
    LookupIsFind(hash, q, t, n, k);
  }

  lemma LeafDocInjective(m: Stamps, m': Stamps)
    requires LeafDoc(m) == LeafDoc(m')
    ensures m == m'
  {
    forall k ensures k in m <==> k in m' { assert k in LeafDoc(m) <==> k in LeafDoc(m'); }
    forall k | k in m ensures m[k] == m'[k] { assert LeafDoc(m)[k] == LeafDoc(m')[k]; }
  }

  lemma LeafDocIsNotBranchDoc(hash: MerkleDoc -> Multihash, m: Stamps, kids: map<Nibble, Tree>)
    requires |m| > 0
    ensures LeafDoc(m) != DocOf(hash, Node(kids))
  {
    var k :| k in m;
    assert LeafDoc(m)[k].Stamp?;
    BranchDoc(hash, kids, k);
  }

  /** Comparing heads is sound: equal merklehead bytes mean the same tree,
      hence the same address -> timestamp map. */
  lemma {:induction false} SameHeadSameTree(hash: MerkleDoc -> Multihash, t: Tree, u: Tree, n: nat)
    requires Injective(hash) && WellFormed(t, n) && WellFormed(u, n)
    requires HashOf(hash, t) == HashOf(hash, u)
    ensures t == u
    decreases n
  {
    assert DocOf(hash, t) == DocOf(hash, u);
    if t.Leaf? {
      if u.Node? { LeafDocIsNotBranchDoc(hash, t.entries, u.kids); }
      LeafDocInjective(t.entries, u.entries);
    } else {
      if u.Leaf? { LeafDocIsNotBranchDoc(hash, u.entries, t.kids); }
      forall c: Nibble ensures Get(t.kids, c) == Get(u.kids, c) {
        BranchDoc(hash, t.kids, [c]);
        BranchDoc(hash, u.kids, [c]);
        if c in t.kids { SameHeadSameTree(hash, t.kids[c], u.kids[c], n - 1); }
      }
      SameEntries(t.kids, u.kids);
    }
  }

  // ---- Splitting a full document ------------------------------------------------------------------

  /** The child documents of a split, one for each first nibble. */
  function GroupDocs(m: Stamps): map<Nibble, MerkleDoc> {
    map c | c in Heads(m) :: LeafDoc(Under(m, c))
  }

  function PutInGroup(groups: map<Nibble, MerkleDoc>, k: Tail, v: nat): map<Nibble, MerkleDoc>
    requires |k| > 0
  {
    groups[k[0] := (if k[0] in groups then groups[k[0]] else map[])[k[1..] := Stamp(v)]]
  }

  lemma GroupAt(m: Stamps, k: Tail, v: nat, c: Nibble, s: Tail)
    requires |k| > 0
    ensures c in Heads(m[k := v]) <==> c == k[0] || c in Heads(m)
    ensures s in Under(m[k := v], c) <==> s in Under(m, c) || [c] + s == k
    ensures s in Under(m[k := v], c) ==> Under(m[k := v], c)[s] == if [c] + s == k then v else Under(m, c)[s]
  {
    UnderAt(m, c, s);
    UnderAt(m[k := v], c, s);
    assert m[k := v].Keys == m.Keys + {k};
  }

  /** The group the new entry joins. */
  lemma GroupJoined(m: Stamps, k: Tail, v: nat)
    requires |k| > 0
    ensures
      var before := if k[0] in Heads(m) then LeafDoc(Under(m, k[0])) else map[];
      LeafDoc(Under(m[k := v], k[0])) == before[k[1..] := Stamp(v)]
  {
    hide Under, Heads;
    var c := k[0];
    var before := if c in Heads(m) then LeafDoc(Under(m, c)) else map[];
    var after := before[k[1..] := Stamp(v)];
    EmptyUnder(m, c);
    forall s: Tail ensures Get(LeafDoc(Under(m[k := v], c)), s) == Get(after, s) {
      GroupAt(m, k, v, c, s);
      assert k == [c] + k[1..] && ([c] + s)[1..] == s;
    }
    SameEntries(LeafDoc(Under(m[k := v], c)), after);
  }

  /** All other groups. */
  lemma GroupStays(m: Stamps, k: Tail, v: nat, c: Nibble)
    requires |k| > 0 && c != k[0]
    ensures c in Heads(m[k := v]) <==> c in Heads(m)
    ensures LeafDoc(Under(m[k := v], c)) == LeafDoc(Under(m, c))
  {
    hide Under, Heads;
    GroupAt(m, k, v, c, []);
    forall s: Tail ensures Get(LeafDoc(Under(m[k := v], c)), s) == Get(LeafDoc(Under(m, c)), s) {
      GroupAt(m, k, v, c, s);
      assert ([c] + s)[0] == c;
    }
    SameEntries(LeafDoc(Under(m[k := v], c)), LeafDoc(Under(m, c)));
  }

  /** One more entry joins its group. */
  lemma GroupStep(m: Stamps, k: Tail, v: nat)
    requires |k| > 0
    ensures GroupDocs(m[k := v]) == PutInGroup(GroupDocs(m), k, v)
  {
    hide Under, Heads, LeafDoc;
    forall c: Nibble
      ensures Get(GroupDocs(m[k := v]), c) == Get(PutInGroup(GroupDocs(m), k, v), c)
    {
      GroupAt(m, k, v, c, []);
      if c == k[0] { GroupJoined(m, k, v); } else { GroupStays(m, k, v, c); }
    }
    SameEntries(GroupDocs(m[k := v]), PutInGroup(GroupDocs(m), k, v));
  }

  lemma NoGroups()
    ensures GroupDocs(map[]) == map[]
  {}

  lemma EmptyUnder(m: Stamps, c: Nibble)
    ensures c !in Heads(m) ==> Under(m, c) == map[]
  {
    forall s: Tail ensures s in Under(m, c) ==> c in Heads(m) {
      UnderAt(m, c, s);
      assert ([c] + s)[0] == c;
    }
  }

  // ---- The code -----------------------------------------------------------------------------------

  class Merklehead {
    const hash: MerkleDoc -> Multihash
    const store: DocStore<MerkleDoc>

    /** The package variable: the multihash of the root document, or nil. */
    var head: Option<Multihash>

    constructor (hash: MerkleDoc -> Multihash, store: DocStore<MerkleDoc>)
      ensures this.hash == hash && this.store == store && head == None
    {
      this.hash, this.store, head := hash, store, None;
    }

    ghost predicate Valid()
      reads this, store
    {
      Injective(hash) && Addressed(hash, store.pastes)
    }

    /** The head stands for this tree, and all of it is stored. */
    ghost predicate Shows(h: Head)
      reads this, store
    {
      match h
      case None => head == None
      case Some(t) => head == Some(HashOf(hash, t)) && Stored(hash, store.pastes, t)
    }

    method FetchDoc(docHash: Multihash, ghost t: Tree) returns (doc: MerkleDoc)
      requires docHash == HashOf(hash, t) && Stored(hash, store.pastes, t)
      ensures doc == DocOf(hash, t)
    {
      var stored, _ := store.Get(docHash);
      doc := stored.data.value;
    }

    method SaveDoc(doc: MerkleDoc) returns (cid: Multihash)
      requires Valid()
      modifies store
      ensures Valid() && Grows(old(store.pastes), store.pastes)
      ensures cid == hash(doc) && Holds(store.pastes, cid, doc)
    {
      cid := hash(doc);
      AddedHolds(hash, store.pastes, doc);
      store.Add(cid, Some(doc));
    }

    /** The value of an arbitrary entry decides whether a document is a leaf;
        an empty document counts as a branch. */
    method HoldsTimestamps(doc: MerkleDoc, ghost t: Tree, ghost n: nat) returns (isLeaf: bool)
      requires doc == DocOf(hash, t) && WellFormed(t, n)
      ensures isLeaf <==> t.Leaf?
    {
      isLeaf := false;
      if t.Leaf? { LeafDocSize(t.entries); }
      if doc.Keys != {} {
        var k :| k in doc.Keys;
        isLeaf := doc[k].Stamp?;
      }
    }

    /** Distribute the entries of a full document over one document for each first nibble. */
    method GroupByNibble(rootDoc: MerkleDoc, ghost m: Stamps, addressTail: Tail, timestamp: nat)
      returns (groups: map<Nibble, MerkleDoc>)
      requires rootDoc == LeafDoc(m) && |addressTail| > 0 && forall k :: k in m ==> |k| > 0
      ensures groups == GroupDocs(m[addressTail := timestamp])
    {
      hide *;
      LeafDocSize(m);
      groups := map[];
      var todo := rootDoc;
      ghost var done: Stamps := map[];
      NoGroups();
      CopyStart(m);
      while todo != map[]
        invariant Copied(todo, done, m) && groups == GroupDocs(done)
        decreases |todo|
      {
        var address :| address in todo.Keys;
        CopyStep(todo, done, m, address);
        GroupStep(done, address, m[address]);
        groups := PutEntry(groups, address, todo[address].time);
        done := done[address := m[address]];
        todo := todo - {address};
      }
      CopyEnd(todo, done, m);
      GroupStep(m, addressTail, timestamp);
      groups := PutEntry(groups, addressTail, timestamp);
    }

    method PutEntry(groups: map<Nibble, MerkleDoc>, address: Tail, timestamp: nat) returns (r: map<Nibble, MerkleDoc>)
      requires |address| > 0
      ensures r == PutInGroup(groups, address, timestamp)
    {
      var prefix, tail := address[0], address[1..];
      if prefix in groups {
        r := groups[prefix := groups[prefix][tail := Stamp(timestamp)]];
      } else {
        r := groups[prefix := map[tail := Stamp(timestamp)]];
      }
    }

    /** Save every child document and link to it from the new root document. */
    method SaveGroups(groups: map<Nibble, MerkleDoc>, ghost m: Stamps) returns (newRootDoc: MerkleDoc)
      requires Valid() && groups == GroupDocs(m)
      modifies store
      ensures Valid() && Grows(old(store.pastes), store.pastes)
      ensures newRootDoc == DocOf(hash, Split(m))
      ensures forall c :: c in Split(m).kids ==> Stored(hash, store.pastes, Split(m).kids[c])
    {
      hide GroupDocs, Split, Grows, Addressed, Stored, HashOf, DocOf;
      newRootDoc := map[];
      var todo := groups.Keys;
      GrowsBy(store.pastes, store.pastes, store.pastes);
      while todo != {}
        invariant Valid() && Grows(old(store.pastes), store.pastes) && todo <= groups.Keys
        invariant forall k :: k in newRootDoc <==> |k| == 1 && k[0] in groups.Keys - todo
        invariant forall k :: k in newRootDoc ==> newRootDoc[k] == Link(hash(groups[k[0]]))
        invariant forall c :: c in groups.Keys - todo ==> Holds(store.pastes, hash(groups[c]), groups[c])
        decreases |todo|
      {
        var prefix :| prefix in todo;
        ghost var before := store.pastes;
        var cid := SaveDoc(groups[prefix]);
        GrowsBy(old(store.pastes), before, store.pastes);
        newRootDoc := newRootDoc[[prefix] := Link(cid)];
        assert forall k: Tail :: k == [prefix] <==> |k| == 1 && k[0] == prefix;
        todo := todo - {prefix};
      }
      SavedGroups(hash, store.pastes, m, newRootDoc);
    }

    /** addItemRecursive: the new root stands for the tree with the address added; what was stored
        stays stored, so every earlier root still reads back its old map. */
    method AddItemRecursive(docHash: Multihash, addressTail: Tail, timestamp: nat, ghost t: Tree)
      returns (newCid: Multihash)
      requires Valid() && docHash == HashOf(hash, t) && Stored(hash, store.pastes, t)
      requires WellFormed(t, |addressTail|)
      modifies store
      ensures Valid() && Grows(old(store.pastes), store.pastes)
      ensures newCid == HashOf(hash, AddTree(t, addressTail, timestamp))
      ensures Stored(hash, store.pastes, AddTree(t, addressTail, timestamp))
      decreases |addressTail|
    {
      hide *;
      var rootDoc := FetchDoc(docHash, t);
      var isLeaf := HoldsTimestamps(rootDoc, t, |addressTail|);
      ghost var t' := AddTree(t, addressTail, timestamp);
      if isLeaf {
        LeafCase(hash, t, addressTail, timestamp);
        if |rootDoc| < LEAF_CAPACITY {
          rootDoc := rootDoc[addressTail := Stamp(timestamp)];
        } else {
          var groups := GroupByNibble(rootDoc, t.entries, addressTail, timestamp);
          rootDoc := SaveGroups(groups, t.entries[addressTail := timestamp]);
        }
      } else {
        BranchCase(hash, store.pastes, t, addressTail, timestamp);
        var prefix, tail := addressTail[..1], addressTail[1..];
        var childCid: Multihash;
        if prefix in rootDoc {
          childCid := AddItemRecursive(rootDoc[prefix].cid, tail, timestamp, t.kids[addressTail[0]]);
        } else if |rootDoc| == 16 {
          FullBranchHasEveryNibble(hash, t.kids, addressTail[0]);
          assert false;  // "we should have found a match"
        } else {
          childCid := SaveDoc(map[tail := Stamp(timestamp)]);
          SingleLeafStored(hash, store.pastes, tail, timestamp);
        }
        rootDoc := rootDoc[prefix := Link(childCid)];
      }
      assert rootDoc == DocOf(hash, t');
      ghost var between := store.pastes;
      newCid := SaveDoc(rootDoc);
      assert newCid == HashOf(hash, t') by { HashIs(hash, t'); }
      GrowsBy(old(store.pastes), between, store.pastes);
      SavedTree(hash, t, addressTail, timestamp, old(store.pastes), between, store.pastes);
    }

    /** merklehead.Add: the new head stands for the updated tree. */
    method Add(address: Tail, timestamp: nat, ghost h: Head)
      requires Valid() && Shows(h) && GoodHead(h) && |address| == ADDRESS_LENGTH
      modifies this`head, store
      ensures Valid() && Shows(AddHead(h, address, timestamp)) && GoodHead(AddHead(h, address, timestamp))
      ensures head.Some?
      ensures Grows(old(store.pastes), store.pastes)
    {
      var newCid: Multihash;
      if head == None {
        newCid := SaveDoc(map[address := Stamp(timestamp)]);
        SingleLeafStored(hash, store.pastes, address, timestamp);
      } else {
        newCid := AddItemRecursive(head.value, address, timestamp, h.value);
        AddKeepsShape(h.value, ADDRESS_LENGTH, 0, address, timestamp);
      }
      head := Some(newCid);
    }

    /** Delete one entry of a leaf document and report what is left of it. */
    method RemoveFromLeaf(rootDoc: MerkleDoc, ghost m: Stamps, addressTail: Tail)
      returns (found: bool, newDoc: MerkleDoc, remainMap: Stamps)
      requires rootDoc == LeafDoc(m)
      ensures found <==> addressTail in m
      ensures found ==> remainMap == m - {addressTail} && newDoc == LeafDoc(remainMap)
    {
      LeafDocSize(m);
      LeafDocMinus(m, addressTail);
      found, newDoc, remainMap := false, rootDoc, map[];
      if addressTail in rootDoc {
        found, newDoc := true, rootDoc - {addressTail};
        remainMap := CopyEntries(newDoc, m - {addressTail});
      }
    }

    method CopyEntries(doc: MerkleDoc, ghost m: Stamps) returns (remainMap: Stamps)
      requires doc == LeafDoc(m)
      ensures remainMap == m
    {
      hide *;
      LeafDocSize(m);
      remainMap := map[];
      var todo := doc;
      CopyStart(m);
      while todo != map[]
        invariant Copied(todo, remainMap, m)
        decreases |todo|
      {
        var k :| k in todo.Keys;
        CopyStep(todo, remainMap, m, k);
        remainMap := remainMap[k := todo[k].time];
        todo := todo - {k};
      }
      CopyEnd(todo, remainMap, m);
    }

    /** Merge the entries of one sibling document: stop at a link, and when there are too many. */
    method MergeSibling(tmpDoc: MerkleDoc, ghost kid: Tree, acc: Stamps) returns (remainMap: Stamps, stop: bool)
      requires tmpDoc == DocOf(hash, kid)
      ensures stop == StopsAt(kid, acc)
      ensures Alike(remainMap, MergedWith(kid, acc)) && (!stop ==> remainMap == MergedWith(kid, acc))
    {
      hide *;
      SiblingDoc(hash, kid);
      remainMap := acc;
      var todo := tmpDoc;
      ghost var done: Stamps := map[];
      MergeStart(kid, tmpDoc, acc);
      assert done.Keys == {};
      while todo != map[]
        invariant todo == tmpDoc - done.Keys
        invariant if kid.Leaf? then Within(done, kid.entries) else done == map[]
        invariant remainMap == acc + done
        decreases |todo|
      {
        var k :| k in todo.Keys;
        if todo[k].Link? {
          MergeStopsAtLink(kid, acc);
          return acc, true;
        }
        MergeStep(kid.entries, tmpDoc, acc, done, k);
        remainMap := remainMap[k := todo[k].time];
        todo := todo - {k};
        done := done[k := kid.entries[k]];
        if |remainMap| > LEAF_CAPACITY {
          MergeStopsFull(kid, acc, done);
          return remainMap, true;
        }
      }
      MergeEnds(kid, tmpDoc, acc, done);
      stop := |remainMap| > LEAF_CAPACITY;
    }

    /** Gather the entries of the sibling documents, visiting the links in the given order. */
    method CollectSiblings(rootDoc: MerkleDoc, ghost t: Tree, ghost n: nat, skip: Nibble, order: seq<Nibble>,
                           below: Stamps)
      returns (remainMap: Stamps)
      requires t.Node? && WellFormed(t, n) && Stored(hash, store.pastes, t)
      requires forall c: Nibble :: c != skip ==> Get(rootDoc, [c]) == Get(DocOf(hash, t), [c])
      ensures Alike(remainMap, Collect(t.kids, skip, order, below))
    {
      hide DocOf, HashOf, Stored, WellFormed, Collect, StopsAt, MergedWith;
      remainMap := below;
      var i, stop := 0, false;
      ghost var all := Collect(t.kids, skip, order, below);
      assert order[0..] == order;
      while i < |order| && !stop
        invariant 0 <= i <= |order|
        invariant !stop ==> Collect(t.kids, skip, order[i..], remainMap) == all
        invariant stop ==> Alike(remainMap, all)
      {
        var c := order[i];
        CollectStep(t.kids, skip, order[i..], remainMap);
        assert order[i..][1..] == order[i + 1..];
        SiblingLink(hash, store.pastes, t, n, c);
        assert c != skip ==> Get(rootDoc, [c]) == Get(DocOf(hash, t), [c]);
        if c != skip && [c] in rootDoc {
          var tmpDoc := FetchDoc(rootDoc[[c]].cid, t.kids[c]);
          remainMap, stop := MergeSibling(tmpDoc, t.kids[c], remainMap);
        }
        i := i + 1;
      }
      CollectNothing(t.kids, skip, order[i..], remainMap);
    }

    /** removeItemRecursive. */
    method RemoveItemRecursive(docHash: Multihash, addressTail: Tail, order: seq<Nibble>, ghost t: Tree)
      returns (status: RemoveStatus, newCid: Multihash, remainMap: Stamps, isBottomLevel: bool)
      requires Valid() && docHash == HashOf(hash, t) && Stored(hash, store.pastes, t)
      requires WellFormed(t, |addressTail|)
      modifies store
      ensures Valid() && Grows(old(store.pastes), store.pastes)
      ensures status == StatusOf(RemoveTree(t, addressTail, order))
      ensures status == Done ==>
                Reported(hash, store.pastes, RemoveTree(t, addressTail, order), newCid, remainMap, isBottomLevel)
      decreases |addressTail|
    {
      hide *;
      newCid, remainMap, isBottomLevel := docHash, map[], false;
      var rootDoc := FetchDoc(docHash, t);
      var isLeaf := HoldsTimestamps(rootDoc, t, |addressTail|);
      ghost var r := RemoveTree(t, addressTail, order);
      if isLeaf {
        RemoveLeafCase(hash, t, addressTail, order);
        GrowsBy(store.pastes, store.pastes, store.pastes);
        var found: bool;
        found, rootDoc, remainMap := RemoveFromLeaf(rootDoc, t.entries, addressTail);
        isBottomLevel := true;
        if !found {
          return NotFoundError, newCid, remainMap, isBottomLevel;
        }
      } else {
        RemoveBranchCase(hash, store.pastes, t, addressTail, order);
        var prefix, tail := addressTail[..1], addressTail[1..];
        if prefix !in rootDoc {
          GrowsBy(store.pastes, store.pastes, store.pastes);
          return TypeAssertionPanic, newCid, remainMap, isBottomLevel;
        }
        ghost var kid := t.kids[addressTail[0]];
        var childCid, below, bottomLevelFound;
        status, childCid, below, bottomLevelFound := RemoveItemRecursive(rootDoc[prefix].cid, tail, order, kid);
        if status != Done {
          return status, newCid, remainMap, isBottomLevel;
        }
        Relinked(hash, store.pastes, t, addressTail, order, childCid, below, bottomLevelFound);
        if |below| == 0 {
          rootDoc := rootDoc - {prefix};
        } else {
          rootDoc := rootDoc[prefix := Link(childCid)];
        }
        remainMap := below;
        if bottomLevelFound {
          StoredStays(hash, old(store.pastes), store.pastes, t);
          remainMap := CollectSiblings(rootDoc, t, |addressTail|, addressTail[0], order, below);
          if |remainMap| <= LEAF_CAPACITY {
            rootDoc := LeafDoc(remainMap);
          }
        }
        Gathered(hash, t, addressTail, order, below, bottomLevelFound, remainMap);
      }
      assert rootDoc == DocOf(hash, r.tree);
      ghost var between := store.pastes;
      newCid := SaveDoc(rootDoc);
      GrowsBy(old(store.pastes), between, store.pastes);
      HashIs(hash, r.tree);
      SavedRemoval(hash, t, addressTail, order, old(store.pastes), between, store.pastes);
      ReportedIs(hash, store.pastes, t, addressTail, order, newCid, remainMap, isBottomLevel);
      status := Done;
    }

    /** merklehead.Remove: an error leaves the head alone; otherwise the new head stands for the tree
        that removeItemRecursive computes. */
    method Remove(address: Tail, order: seq<Nibble>, ghost h: Head) returns (status: RemoveStatus)
      requires Valid() && Shows(h) && GoodHead(h) && |address| == ADDRESS_LENGTH
      modifies this`head, store
      ensures Valid() && Grows(old(store.pastes), store.pastes)
      ensures status == if h.None? then NilHeadFailure else StatusOf(RemoveTree(h.value, address, order))
      ensures Shows(if h.None? then None else Some(After(h.value, address, order)))
      ensures h.Some? ==>
                (status == Done <==> Find(h.value, address).Some?) &&
                (status == NotFoundError <==> EndsInLeaf(h.value, address) && Find(h.value, address).None?) &&
                (status == TypeAssertionPanic <==> !EndsInLeaf(h.value, address))
      ensures status != Done ==> head == old(head)
    {
      if h.Some? { RemoveOfMissing(h.value, ADDRESS_LENGTH, address, order); }
      if head.None? {
        GrowsBy(store.pastes, store.pastes, store.pastes);
        return NilHeadFailure;  // "Cannot reduce merklehead to nil"
      }
      var newCid, remain, bottom;
      status, newCid, remain, bottom := RemoveItemRecursive(head.value, address, order, h.value);
      if status != Done {
        StoredStays(hash, old(store.pastes), store.pastes, h.value);
        return;
      }
      head := Some(newCid);
    }
  }

  // ---- Removal ------------------------------------------------------------------------------------

  /** The entries of a leaf document that are still to be copied, and those that have been. */
  ghost predicate Copied(todo: MerkleDoc, done: Stamps, m: Stamps) {
    todo.Keys !! done.Keys && todo.Keys + done.Keys == m.Keys &&
    (forall k :: k in todo ==> todo[k] == Stamp(m[k])) && forall k :: k in done ==> done[k] == m[k]
  }

  lemma CopyStart(m: Stamps)
    ensures Copied(LeafDoc(m), map[], m)
  {}

  lemma CopyStep(todo: MerkleDoc, done: Stamps, m: Stamps, k: Tail)
    requires Copied(todo, done, m) && k in todo
    ensures k in m && k !in done && todo[k] == Stamp(m[k]) && Copied(todo - {k}, done[k := m[k]], m)
  {
    assert (todo - {k}).Keys + done[k := m[k]].Keys == todo.Keys + done.Keys;
  }

  lemma CopyEnd(todo: MerkleDoc, done: Stamps, m: Stamps)
    requires Copied(todo, done, m) && todo == map[]
    ensures done == m
  {
    assert done.Keys == m.Keys;
  }

  /** How removal returns: normally, with "address not found", or by panicking on a missing link; the
      process ends when there is no merklehead yet. */
  datatype RemoveStatus = Done | NotFoundError | TypeAssertionPanic | NilHeadFailure

  function StatusOf(r: Removal): RemoveStatus {
    match r
    case NotFound => NotFoundError
    case NoLink => TypeAssertionPanic
    case Removed(_, _, _) => Done
  }

  /** The reported entries matter only as long as a document could hold them. */
  ghost predicate Alike(a: Stamps, b: Stamps) {
    a == b || (|a| > LEAF_CAPACITY && |b| > LEAF_CAPACITY)
  }

  ghost predicate Reported(hash: MerkleDoc -> Multihash, pastes: Pastes<MerkleDoc>, r: Removal,
                           newCid: Multihash, remainMap: Stamps, isBottomLevel: bool)
  {
    r.Removed? && newCid == HashOf(hash, r.tree) && Stored(hash, pastes, r.tree) &&
    isBottomLevel == r.bottom && Alike(remainMap, r.remain) && (r.bottom ==> remainMap == r.remain)
  }

  function MergedWith(kid: Tree, acc: Stamps): Stamps {
    if kid.Leaf? then acc + kid.entries else acc
  }

  predicate StopsAt(kid: Tree, acc: Stamps) {
    |MergedWith(kid, acc)| > LEAF_CAPACITY || (kid.Node? && |kid.kids| > 0)
  }

  ghost predicate Within(done: Stamps, m: Stamps) {
    forall k :: k in done ==> k in m && done[k] == m[k]
  }

  lemma MergeStart(kid: Tree, doc: MerkleDoc, acc: Stamps)
    ensures acc + map[] == acc && doc - {} == doc
    ensures kid.Leaf? ==> Within(map[], kid.entries)
  {}

  lemma MergeStep(m: Stamps, doc: MerkleDoc, acc: Stamps, done: Stamps, k: Tail)
    requires Within(done, m) && k in m
    ensures Within(done[k := m[k]], m)
    ensures (acc + done)[k := m[k]] == acc + done[k := m[k]]
    ensures doc - done.Keys - {k} == doc - done[k := m[k]].Keys
  {}

  lemma MergeStopsAtLink(kid: Tree, acc: Stamps)
    requires kid.Node? && |kid.kids| > 0
    ensures StopsAt(kid, acc) && Alike(acc, MergedWith(kid, acc))
  {}

  lemma MergeStopsFull(kid: Tree, acc: Stamps, done: Stamps)
    requires kid.Leaf? && Within(done, kid.entries) && |acc + done| > LEAF_CAPACITY
    ensures StopsAt(kid, acc) && Alike(acc + done, MergedWith(kid, acc))
  {
    SubsetSize((acc + done).Keys, (acc + kid.entries).Keys);
  }

  lemma WithinAll(done: Stamps, m: Stamps)
    requires Within(done, m) && forall k :: k in m ==> k in done
    ensures done == m
  {}

  lemma MergeEnds(kid: Tree, doc: MerkleDoc, acc: Stamps, done: Stamps)
    requires doc - done.Keys == map[]
    requires kid.Leaf? ==> doc.Keys == kid.entries.Keys && Within(done, kid.entries)
    requires kid.Node? ==> done == map[] && (doc == map[] <==> |kid.kids| == 0)
    ensures acc + done == MergedWith(kid, acc) && Alike(acc + done, MergedWith(kid, acc))
    ensures StopsAt(kid, acc) <==> |acc + done| > LEAF_CAPACITY
  {
    if kid.Leaf? {
      forall k | k in kid.entries ensures k in done {
        assert k in doc;
        assert k in doc - done.Keys || k in done;
      }
      WithinAll(done, kid.entries);
    } else {
      assert doc - done.Keys == doc;
      assert acc + done == acc;
    }
  }

  lemma CollectStep(kids: map<Nibble, Tree>, skip: Nibble, order: seq<Nibble>, acc: Stamps)
    requires order != []
    ensures order[0] == skip || order[0] !in kids ==>
              Collect(kids, skip, order, acc) == Collect(kids, skip, order[1..], acc)
    ensures order[0] != skip && order[0] in kids ==>
              Collect(kids, skip, order, acc) ==
              if StopsAt(kids[order[0]], acc) then MergedWith(kids[order[0]], acc)
              else Collect(kids, skip, order[1..], MergedWith(kids[order[0]], acc))
  {}

  lemma CollectNothing(kids: map<Nibble, Tree>, skip: Nibble, order: seq<Nibble>, acc: Stamps)
    ensures order == [] ==> Collect(kids, skip, order, acc) == acc
  {}

  lemma SiblingDoc(hash: MerkleDoc -> Multihash, kid: Tree)
    ensures kid.Leaf? ==> DocOf(hash, kid).Keys == kid.entries.Keys
    ensures kid.Leaf? ==> forall k :: k in kid.entries ==> DocOf(hash, kid)[k] == Stamp(kid.entries[k])
    ensures kid.Node? ==> forall k :: k in DocOf(hash, kid) ==> DocOf(hash, kid)[k].Link?
    ensures kid.Node? ==> (DocOf(hash, kid) == map[] <==> |kid.kids| == 0)
  {
    if kid.Node? {
      forall c | c in kid.kids ensures [c] in DocOf(hash, kid) { BranchDoc(hash, kid.kids, [c]); }
    }
  }

  lemma SiblingLink(hash: MerkleDoc -> Multihash, pastes: Pastes<MerkleDoc>, t: Tree, n: nat, c: Nibble)
    requires t.Node? && WellFormed(t, n) && Stored(hash, pastes, t)
    ensures n > 0 && ([c] in DocOf(hash, t) <==> c in t.kids)
    ensures c in t.kids ==> DocOf(hash, t)[[c]] == Link(HashOf(hash, t.kids[c]))
    ensures c in t.kids ==> WellFormed(t.kids[c], n - 1) && Stored(hash, pastes, t.kids[c])
  {
    BranchDoc(hash, t.kids, [c]);
  }

  lemma LeafDocMinus(m: Stamps, k: Tail)
    ensures LeafDoc(m) - {k} == LeafDoc(m - {k})
  {}

  lemma PackDoc(hash: MerkleDoc -> Multihash, m: Stamps)
    ensures DocOf(hash, Pack(m)) == LeafDoc(m)
  {
    if |m| == 0 { assert m == map[]; }
  }

  lemma RemoveLeafCase(hash: MerkleDoc -> Multihash, t: Tree, k: Tail, order: seq<Nibble>)
    requires t.Leaf?
    ensures DocOf(hash, t) == LeafDoc(t.entries)
    ensures k !in t.entries ==> StatusOf(RemoveTree(t, k, order)) == NotFoundError
    ensures k in t.entries ==>
              StatusOf(RemoveTree(t, k, order)) == Done &&
              RemoveTree(t, k, order).Removed? &&
              RemoveTree(t, k, order).remain == t.entries - {k} && RemoveTree(t, k, order).bottom &&
              DocOf(hash, RemoveTree(t, k, order).tree) == LeafDoc(t.entries - {k})
  {
    PackDoc(hash, t.entries - {k});
  }

  lemma RemoveBranchCase(hash: MerkleDoc -> Multihash, pastes: Pastes<MerkleDoc>, t: Tree, k: Tail, order: seq<Nibble>)
    requires t.Node? && WellFormed(t, |k|) && Stored(hash, pastes, t)
    ensures |k| > 0 && (k[..1] in DocOf(hash, t) <==> k[0] in t.kids)
    ensures k[0] !in t.kids ==> StatusOf(RemoveTree(t, k, order)) == TypeAssertionPanic
    ensures k[0] in t.kids ==>
              DocOf(hash, t)[k[..1]] == Link(HashOf(hash, t.kids[k[0]])) &&
              Stored(hash, pastes, t.kids[k[0]]) && WellFormed(t.kids[k[0]], |k[1..]|) &&
              StatusOf(RemoveTree(t, k, order)) == StatusOf(RemoveTree(t.kids[k[0]], k[1..], order))
  {
    hide DocOf, Stored, HashOf, Collect, Pack;
    SiblingLink(hash, pastes, t, |k|, k[0]);
    assert k[..1] == [k[0]];
  }

  /** The links of a branch after removal in one child, before any collapse. */
  function Relink(kids: map<Nibble, Tree>, c: Nibble, kid: Tree, below: Stamps): Tree {
    Node(if |below| == 0 then kids - {c} else kids[c := kid])
  }

  lemma Relinked(hash: MerkleDoc -> Multihash, pastes: Pastes<MerkleDoc>, t: Tree, k: Tail, order: seq<Nibble>,
                 childCid: Multihash, below: Stamps, bottom: bool)
    requires t.Node? && |k| > 0 && k[0] in t.kids
    requires Reported(hash, pastes, RemoveTree(t.kids[k[0]], k[1..], order), childCid, below, bottom)
    ensures var doc' := if |below| == 0 then DocOf(hash, t) - {k[..1]} else DocOf(hash, t)[k[..1] := Link(childCid)];
            doc' == DocOf(hash, Relink(t.kids, k[0], RemoveTree(t.kids[k[0]], k[1..], order).tree, below)) &&
            forall c: Nibble :: c != k[0] ==> Get(doc', [c]) == Get(DocOf(hash, t), [c])
    ensures var r := RemoveTree(t.kids[k[0]], k[1..], order);
            r.Removed? && bottom == r.bottom && Alike(below, r.remain) && (bottom ==> below == r.remain) &&
            Stored(hash, pastes, r.tree)
  {
    var kid := RemoveTree(t.kids[k[0]], k[1..], order).tree;
    var doc' := if |below| == 0 then DocOf(hash, t) - {k[..1]} else DocOf(hash, t)[k[..1] := Link(childCid)];
    var t' := Relink(t.kids, k[0], kid, below);
    forall j: Tail ensures Get(doc', j) == Get(DocOf(hash, t'), j) {
      BranchDoc(hash, t.kids, j);
      BranchDoc(hash, t'.kids, j);
      if |j| == 1 && j[0] == k[0] { assert j == k[..1]; }
    }
    SameEntries(doc', DocOf(hash, t'));
    forall c: Nibble | c != k[0] ensures Get(doc', [c]) == Get(DocOf(hash, t), [c]) {
      assert [c] != k[..1] by { assert k[..1][0] == k[0] && [c][0] == c; }
    }
  }

  /** What the branch reports and which document it becomes. */
  lemma Gathered(hash: MerkleDoc -> Multihash, t: Tree, k: Tail, order: seq<Nibble>, below: Stamps, bottom: bool,
                 all: Stamps)
    requires t.Node? && |k| > 0 && k[0] in t.kids
    requires RemoveTree(t.kids[k[0]], k[1..], order).Removed?
    requires Alike(below, RemoveTree(t.kids[k[0]], k[1..], order).remain)
    requires bottom == RemoveTree(t.kids[k[0]], k[1..], order).bottom
    requires bottom ==> below == RemoveTree(t.kids[k[0]], k[1..], order).remain
    requires if bottom then Alike(all, Collect(t.kids, k[0], order, below)) else all == below
    ensures RemoveTree(t, k, order).Removed? && !RemoveTree(t, k, order).bottom
    ensures Alike(all, RemoveTree(t, k, order).remain)
    ensures DocOf(hash, RemoveTree(t, k, order).tree) ==
            if bottom && |all| <= LEAF_CAPACITY then LeafDoc(all)
            else DocOf(hash, Relink(t.kids, k[0], RemoveTree(t.kids[k[0]], k[1..], order).tree, below))
  {
    hide DocOf, Collect;
    PackDoc(hash, all);
  }

  lemma ReportedIs(hash: MerkleDoc -> Multihash, pastes: Pastes<MerkleDoc>, t: Tree, k: Tail, order: seq<Nibble>,
                   newCid: Multihash, remainMap: Stamps, isBottomLevel: bool)
    requires RemoveTree(t, k, order).Removed? && newCid == HashOf(hash, RemoveTree(t, k, order).tree)
    requires Stored(hash, pastes, RemoveTree(t, k, order).tree)
    requires Alike(remainMap, RemoveTree(t, k, order).remain) || remainMap == RemoveTree(t, k, order).remain
    requires isBottomLevel == RemoveTree(t, k, order).bottom
    requires isBottomLevel ==> remainMap == RemoveTree(t, k, order).remain
    ensures Reported(hash, pastes, RemoveTree(t, k, order), newCid, remainMap, isBottomLevel)
    ensures StatusOf(RemoveTree(t, k, order)) == Done
  {}

  /** The kept children, the changed child and the new root document make the result stored. */
  lemma SavedRemoval(hash: MerkleDoc -> Multihash, t: Tree, k: Tail, order: seq<Nibble>,
                     before: Pastes<MerkleDoc>, between: Pastes<MerkleDoc>, after: Pastes<MerkleDoc>)
    requires Stored(hash, before, t) && Grows(before, between) && Grows(between, after)
    requires RemoveTree(t, k, order).Removed?
    requires Holds(after, HashOf(hash, RemoveTree(t, k, order).tree), DocOf(hash, RemoveTree(t, k, order).tree))
    requires t.Node? && RemoveTree(t.kids[k[0]], k[1..], order).Removed? ==>
               Stored(hash, between, RemoveTree(t.kids[k[0]], k[1..], order).tree)
    ensures Stored(hash, after, RemoveTree(t, k, order).tree)
  {
    hide DocOf, HashOf, Collect, Holds;
    var u := RemoveTree(t, k, order).tree;
    if t.Node? && u.Node? {
      forall c | c in u.kids ensures Stored(hash, after, u.kids[c]) {
        if c == k[0] {
          StoredStays(hash, between, after, u.kids[c]);
        } else {
          GrowsBy(before, between, after);
          StoredStays(hash, before, after, t.kids[c]);
        }
      }
    }
  }


  lemma HashIs(hash: MerkleDoc -> Multihash, t: Tree)
    ensures HashOf(hash, t) == hash(DocOf(hash, t))
  {}

  /** What adding to a leaf document has to produce. */
  lemma LeafCase(hash: MerkleDoc -> Multihash, t: Tree, k: Tail, v: nat)
    requires t.Leaf? && WellFormed(t, |k|)
    ensures DocOf(hash, t) == LeafDoc(t.entries) && |DocOf(hash, t)| == |t.entries|
    ensures |t.entries| < LEAF_CAPACITY ==> DocOf(hash, AddTree(t, k, v)) == LeafDoc(t.entries)[k := Stamp(v)]
    ensures |t.entries| >= LEAF_CAPACITY ==>
              AddTree(t, k, v) == Split(t.entries[k := v]) && |k| > 0 && forall j :: j in t.entries ==> |j| > 0
  {
    LeafDocSize(t.entries);
    if |t.entries| >= LEAF_CAPACITY { FullLeafHasNibbles(t.entries, |k|); }
    assert LeafDoc(t.entries[k := v]) == LeafDoc(t.entries)[k := Stamp(v)];
  }

  /** What adding to a branch document has to produce. */
  lemma BranchCase(hash: MerkleDoc -> Multihash, pastes: Pastes<MerkleDoc>, t: Tree, k: Tail, v: nat)
    requires t.Node? && WellFormed(t, |k|) && Stored(hash, pastes, t)
    ensures |k| > 0 && AddTree(t, k, v).Node? && k[0] in AddTree(t, k, v).kids
    ensures k[..1] in DocOf(hash, t) <==> k[0] in t.kids
    ensures k[0] in t.kids ==>
              DocOf(hash, t)[k[..1]] == Link(HashOf(hash, t.kids[k[0]])) &&
              Stored(hash, pastes, t.kids[k[0]]) && WellFormed(t.kids[k[0]], |k[1..]|) &&
              AddTree(t, k, v).kids[k[0]] == AddTree(t.kids[k[0]], k[1..], v)
    ensures k[0] !in t.kids ==> AddTree(t, k, v).kids[k[0]] == Leaf(map[k[1..] := v])
    ensures DocOf(hash, AddTree(t, k, v)) ==
            DocOf(hash, t)[k[..1] := Link(HashOf(hash, AddTree(t, k, v).kids[k[0]]))]
  {
    hide DocOf, HashOf;
    BranchDoc(hash, t.kids, k[..1]);
    BranchDocUpdate(hash, t.kids, k, AddTree(t, k, v).kids[k[0]]);
  }

  lemma SingleLeafStored(hash: MerkleDoc -> Multihash, pastes: Pastes<MerkleDoc>, k: Tail, v: nat)
    ensures HashOf(hash, Leaf(map[k := v])) == hash(map[k := Stamp(v)])
    ensures Stored(hash, pastes, Leaf(map[k := v])) <==> Holds(pastes, hash(map[k := Stamp(v)]), map[k := Stamp(v)])
  {
    assert LeafDoc(map[k := v]) == map[k := Stamp(v)];
  }

  lemma GrowsBy(p: Pastes<MerkleDoc>, q: Pastes<MerkleDoc>, r: Pastes<MerkleDoc>)
    ensures Grows(p, p)
    ensures Grows(p, q) && Grows(q, r) ==> Grows(p, r)
    ensures Grows(q, r) ==> forall h, d :: Holds(q, h, d) ==> Holds(r, h, d)
  {}

  /** Links to all the saved groups are the document of the split tree, with its leaves stored. */
  lemma SavedGroups(hash: MerkleDoc -> Multihash, pastes: Pastes<MerkleDoc>, m: Stamps, doc: MerkleDoc)
    requires forall k :: k in doc <==> |k| == 1 && k[0] in GroupDocs(m)
    requires forall k :: k in doc ==> doc[k] == Link(hash(GroupDocs(m)[k[0]]))
    requires forall c :: c in GroupDocs(m) ==> Holds(pastes, hash(GroupDocs(m)[c]), GroupDocs(m)[c])
    ensures doc == DocOf(hash, Split(m))
    ensures forall c :: c in Split(m).kids ==> Stored(hash, pastes, Split(m).kids[c])
  {
    forall k: Tail ensures Get(doc, k) == Get(DocOf(hash, Split(m)), k) {
      BranchDoc(hash, Split(m).kids, k);
    }
    SameEntries(doc, DocOf(hash, Split(m)));
    forall c | c in Heads(m) ensures Stored(hash, pastes, Leaf(Under(m, c))) {
      assert c in GroupDocs(m) && DocOf(hash, Leaf(Under(m, c))) == GroupDocs(m)[c];
    }
  }

  lemma LeafDocSize(m: Stamps)
    ensures |LeafDoc(m)| == |m| && LeafDoc(m).Keys == m.Keys
    ensures forall k :: k in m ==> LeafDoc(m)[k] == Stamp(m[k])
  {
    assert LeafDoc(m).Keys == m.Keys;
  }

  /** A branch with sixteen links has one for every nibble. */
  lemma FullBranchHasEveryNibble(hash: MerkleDoc -> Multihash, kids: map<Nibble, Tree>, c: Nibble)
    requires |DocOf(hash, Node(kids))| == 16
    ensures c in kids
  {
    var doc := DocOf(hash, Node(kids));
    var nibbles := kids.Keys;
    assert doc.Keys == Singletons(nibbles);
    SingletonsSize(nibbles);
    BoundedSetSize(set d: int | d in nibbles, 16);
    assert (set d: int | d in nibbles) == nibbles;
  }

  function Singletons(s: set<Nibble>): set<Tail> {
    set d | d in s :: [d]
  }

  lemma {:induction false} SingletonsSize(s: set<Nibble>)
    ensures |Singletons(s)| == |s|
  {
    if d :| d in s {
      SingletonsSize(s - {d});
      assert forall e: Nibble :: [e][0] == e;
      assert Singletons(s) == Singletons(s - {d}) + {[d]};
    } else {
      assert Singletons(s) == {};
    }
  }

  lemma BranchDocUpdate(hash: MerkleDoc -> Multihash, kids: map<Nibble, Tree>, k: Tail, kid: Tree)
    requires |k| > 0
    ensures DocOf(hash, Node(kids))[k[..1] := Link(HashOf(hash, kid))] == DocOf(hash, Node(kids[k[0] := kid]))
  {
    var kids' := kids[k[0] := kid];
    forall j: Tail
      ensures Get(DocOf(hash, Node(kids))[k[..1] := Link(HashOf(hash, kid))], j) == Get(DocOf(hash, Node(kids')), j)
    {
      BranchDoc(hash, kids, j);
      BranchDoc(hash, kids', j);
      if |j| == 1 && j[0] == k[0] { assert j == k[..1]; }
    }
    SameEntries(DocOf(hash, Node(kids))[k[..1] := Link(HashOf(hash, kid))], DocOf(hash, Node(kids')));
  }

  /** Old children, new children and the new root document together make the new tree stored. */
  lemma SavedTree(hash: MerkleDoc -> Multihash, t: Tree, k: Tail, v: nat,
                  before: Pastes<MerkleDoc>, between: Pastes<MerkleDoc>, after: Pastes<MerkleDoc>)
    requires WellFormed(t, |k|) && Stored(hash, before, t) && Grows(before, between) && Grows(between, after)
    requires Holds(after, HashOf(hash, AddTree(t, k, v)), DocOf(hash, AddTree(t, k, v)))
    requires t.Leaf? && |t.entries| >= LEAF_CAPACITY ==>
               forall c :: c in AddTree(t, k, v).kids ==> Stored(hash, between, AddTree(t, k, v).kids[c])
    requires t.Node? ==> Stored(hash, between, AddTree(t, k, v).kids[k[0]])
    ensures Stored(hash, after, AddTree(t, k, v))
  {
    var u := AddTree(t, k, v);
    if u.Node? {
      forall c | c in u.kids ensures Stored(hash, after, u.kids[c]) {
        if t.Leaf? || c == k[0] {
          StoredStays(hash, between, after, u.kids[c]);
        } else {
          StoredStays(hash, before, after, t.kids[c]);
        }
      }
    }
  }
}
