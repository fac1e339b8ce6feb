/** removeItemRecursive on trees, and exactly when it is map deletion.

    Go visits a map in an unspecified order; the order in which the links of a branch are visited is
    the parameter `order`. */
module MerkleRemove {
  import opened Basics
  import opened MerkleTree

  /** The code's outcomes: the address is not in the leaf (an error), the branch has no such link
      (a failed type assertion), or a new root with the entries reported upward. */
  datatype Removal =
    | NotFound
    | NoLink
    | Removed(tree: Tree, remain: Stamps, bottom: bool)

  /** The tree that stands for a document holding exactly these entries;
      an empty document counts as a branch. */
  function Pack(m: Stamps): Tree {
    if |m| == 0 then Node(map[]) else Leaf(m)
  }

  /** The entries gathered from the siblings of the changed leaf: their tails are merged as they are,
      the walk stops at the first sibling that is itself a branch and as soon as there are too many. */
  function Collect(kids: map<Nibble, Tree>, skip: Nibble, order: seq<Nibble>, acc: Stamps): Stamps {
    if order == [] then acc
    else
      var c, rest := order[0], order[1..];
      if c == skip || c !in kids then Collect(kids, skip, rest, acc)
      else
        match kids[c]
        case Leaf(m) =>
          if |acc + m| > LEAF_CAPACITY then acc + m else Collect(kids, skip, rest, acc + m)
        case Node(grand) =>
          if |grand| > 0 || |acc| > LEAF_CAPACITY then acc else Collect(kids, skip, rest, acc)
  }

  /** removeItemRecursive. */
  function RemoveTree(t: Tree, k: Tail, order: seq<Nibble>): Removal {
    match t
    case Leaf(m) =>
      if k !in m then NotFound else Removed(Pack(m - {k}), m - {k}, true)
    case Node(kids) =>
      if k == [] || k[0] !in kids then NoLink
      else
        match RemoveTree(kids[k[0]], k[1..], order)
        case Removed(kid, below, bottom) =>
          var kids' := if |below| == 0 then kids - {k[0]} else kids[k[0] := kid];
          var all := if bottom then Collect(kids, k[0], order, below) else below;
          if bottom && |all| <= LEAF_CAPACITY then Removed(Pack(all), all, false)
          else Removed(Node(kids'), all, false)
        case failed => failed
  }

  /** What the head stands for after merklehead.Remove: an error leaves it alone. */
  function After(t: Tree, k: Tail, order: seq<Nibble>): Tree {
    var r := RemoveTree(t, k, order);
    if r.Removed? then r.tree else t
  }

  // ---- The guard ------------------------------------------------------------------------------------

  /** The branch above the target leaf is replaced by one document. */
  predicate Collapses(t: Tree, k: Tail, order: seq<Nibble>) {
    match t
    case Leaf(_) => false
    case Node(kids) =>
      k != [] && k[0] in kids &&
      match kids[k[0]]
      case Leaf(m) => |Collect(kids, k[0], order, m - {k[1..]})| <= LEAF_CAPACITY
      case Node(_) => Collapses(kids[k[0]], k[1..], order)
  }

  ghost predicate OnlyAddress(t: Tree, k: Tail) {
    forall j :: Find(t, j).Some? ==> j == k
  }

  /** No collapse, or nothing else was there to lose: below the branch itself when it is the root,
      otherwise below the root's whole child, because an empty report unlinks every ancestor in turn. */
  ghost predicate RemovesSafely(t: Tree, k: Tail, order: seq<Nibble>) {
    Collapses(t, k, order) ==>
      if t.kids[k[0]].Leaf? then OnlyAddress(t, k) else OnlyAddress(t.kids[k[0]], k[1..])
  }

  /** `u` is `t` without the address `k`, as far as readers of full addresses can tell. */
  ghost predicate Without(t: Tree, u: Tree, n: nat, k: Tail) {
    forall j :: |j| == n ==> Find(u, j) == if j == k then None else Find(t, j)
  }

  // ---- Proofs ---------------------------------------------------------------------------------------

  lemma FoundLength(t: Tree, n: nat, j: Tail)
    requires WellFormed(t, n) && Find(t, j).Some?
    ensures |j| == n
  {
    if t.Node? { FoundLength(t.kids[j[0]], n - 1, j[1..]); }
  }

  lemma {:induction false} CollectSource(kids: map<Nibble, Tree>, skip: Nibble, order: seq<Nibble>, acc: Stamps,
                                         s: Tail)
    returns (c: Nibble)
    requires s in Collect(kids, skip, order, acc) && s !in acc
    ensures c != skip && c in kids && Find(kids[c], s).Some?
  {
    c := order[0];
    if c == skip || c !in kids {
      c := CollectSource(kids, skip, order[1..], acc, s);
    } else if kids[c].Leaf? {
      if s !in kids[c].entries { c := CollectSource(kids, skip, order[1..], acc + kids[c].entries, s); }
    } else {
      c := CollectSource(kids, skip, order[1..], acc, s);
    }
  }

  lemma PackFinds(m: Stamps, j: Tail)
    ensures Find(Pack(m), j) == Get(m, j)
  {
    assert |m| == 0 ==> m == map[];
  }

  /** Without a collapse, removal is deletion and the shape is kept. */
  lemma {:induction false} NoCollapseRemoves(t: Tree, n: nat, k: Tail, order: seq<Nibble>)
    requires WellFormed(t, n) && Find(t, k).Some? && !Collapses(t, k, order)
    ensures RemoveTree(t, k, order).Removed?
    ensures WellFormed(RemoveTree(t, k, order).tree, n) || (t.Leaf? && |t.entries| == 1)
    ensures forall j :: Find(RemoveTree(t, k, order).tree, j) == if j == k then None else Find(t, j)
    ensures t.Leaf? <==> RemoveTree(t, k, order).bottom
    ensures t.Node? ==> |RemoveTree(t, k, order).remain| > 0
  {
    var r := RemoveTree(t, k, order);
    match t
    case Leaf(m) =>
      assert m.Keys == (m - {k}).Keys + {k};
      forall j ensures Find(r.tree, j) == if j == k then None else Find(t, j) { PackFinds(m - {k}, j); }
    case Node(kids) =>
      var c := k[0];
      NoCollapseRemoves(kids[c], n - 1, k[1..], order);
      forall j ensures Find(r.tree, j) == if j == k then None else Find(t, j) {
        SameTail(j, k);
        UnlinkFind(kids, n, k, order, j);
      }
  }

  lemma UnlinkFind(kids: map<Nibble, Tree>, n: nat, k: Tail, order: seq<Nibble>, j: Tail)
    requires WellFormed(Node(kids), n) && Find(Node(kids), k).Some?
    requires RemoveTree(kids[k[0]], k[1..], order).Removed? && RemoveTree(Node(kids), k, order).Removed?
    requires !Collapses(Node(kids), k, order)
    requires forall s :: Find(RemoveTree(kids[k[0]], k[1..], order).tree, s)
                         == if s == k[1..] then None else Find(kids[k[0]], s)
    requires |RemoveTree(kids[k[0]], k[1..], order).remain| > 0 || kids[k[0]].Leaf?
    requires kids[k[0]].Leaf? <==> RemoveTree(kids[k[0]], k[1..], order).bottom
    ensures Find(RemoveTree(Node(kids), k, order).tree, j) == if j == k then None else Find(Node(kids), j)
  {
    SameTail(j, k);
    var r := RemoveTree(kids[k[0]], k[1..], order);
    if |j| > 0 && j[0] == k[0] {
      assert Find(r.tree, j[1..]) == if j[1..] == k[1..] then None else Find(kids[k[0]], j[1..]);
      if |r.remain| == 0 { PackFinds(r.remain, j[1..]); }
    }
  }

  /** A collapse that reports entries upward has lost one of them:
      merged tails no longer carry the nibble that led to them. */
  lemma {:induction false} CollapseLoses(t: Tree, n: nat, k: Tail, order: seq<Nibble>) returns (j: Tail)
    requires WellFormed(t, n) && Find(t, k).Some? && Collapses(t, k, order)
    ensures RemoveTree(t, k, order).Removed? && !RemoveTree(t, k, order).bottom
    ensures |RemoveTree(t, k, order).remain| > 0 ==>
              |j| == n && j != k && Find(t, j).Some? && Find(RemoveTree(t, k, order).tree, j).None?
  {
    var c, kid := k[0], t.kids[k[0]];
    var r := RemoveTree(t, k, order);
    j := k;
    if kid.Leaf? {
      var all := Collect(t.kids, c, order, kid.entries - {k[1..]});
      if |all| > 0 {
        var s :| s in all;
        j := LostAddress(t, n, k, order, s);
      }
    } else {
      var s := CollapseLoses(kid, n - 1, k[1..], order);
      j := [c] + s;
      assert j[1..] == s;
      SameTail(j, k);
    }
  }

  /** One of the entries merged by a collapse, with the address it had before. */
  lemma LostAddress(t: Tree, n: nat, k: Tail, order: seq<Nibble>, s: Tail) returns (j: Tail)
    requires WellFormed(t, n) && Find(t, k).Some? && Collapses(t, k, order) && t.kids[k[0]].Leaf?
    requires s in Collect(t.kids, k[0], order, t.kids[k[0]].entries - {k[1..]})
    ensures |j| == n && j != k && Find(t, j).Some? && Find(After(t, k, order), j).None?
  {
    var own := t.kids[k[0]].entries - {k[1..]};
    var c := k[0];
    if s !in own { c := CollectSource(t.kids, k[0], order, own, s); }
    j := [c] + s;
    assert j[1..] == s;
    FoundLength(t, n, j);
    CollapsedHasShortTails(t, n, k, order, j);
  }

  /** All merged tails are one nibble too short for a reader at this depth. */
  lemma CollapsedHasShortTails(t: Tree, n: nat, k: Tail, order: seq<Nibble>, j: Tail)
    requires WellFormed(t, n) && Find(t, k).Some? && Collapses(t, k, order) && t.kids[k[0]].Leaf?
    requires |j| == n
    ensures Find(After(t, k, order), j).None?
  {
    hide Find, Collect, WellFormed, RemoveTree, After, Pack;
    LeafTails(t, n, k);
    var own := t.kids[k[0]].entries - {k[1..]};
    var all := Collect(t.kids, k[0], order, own);
    PackFinds(all, j);
    if j in all {
      var c := CollectSource(t.kids, k[0], order, own, j);
      FoundLength(t.kids[c], n - 1, j);
    }
    CollapsedIs(t, n, k, order);
  }

  /** The tails of a leaf below a branch are one nibble shorter, and so are those of its siblings. */
  lemma LeafTails(t: Tree, n: nat, k: Tail)
    requires WellFormed(t, n) && t.Node? && k != [] && k[0] in t.kids && t.kids[k[0]].Leaf?
    ensures n > 0 && forall c :: c in t.kids ==> WellFormed(t.kids[c], n - 1)
    ensures forall s :: s in t.kids[k[0]].entries ==> |s| == n - 1
  {
    assert WellFormed(t.kids[k[0]], n - 1);
  }

  lemma CollapsedIs(t: Tree, n: nat, k: Tail, order: seq<Nibble>)
    requires WellFormed(t, n) && Find(t, k).Some? && Collapses(t, k, order) && t.kids[k[0]].Leaf?
    ensures After(t, k, order) == Pack(Collect(t.kids, k[0], order, t.kids[k[0]].entries - {k[1..]}))
  {
    hide Collect, WellFormed;
    var own := t.kids[k[0]].entries - {k[1..]};
    assert RemoveTree(t.kids[k[0]], k[1..], order) == Removed(Pack(own), own, true);
  }

  /** Removing a present address is map deletion exactly when the guard holds:
      every other collapse loses somebody else's address. */
  lemma RemoveIsExact(t: Tree, n: nat, k: Tail, order: seq<Nibble>)
    requires WellFormed(t, n) && Find(t, k).Some?
    ensures RemoveTree(t, k, order).Removed?
    ensures Without(t, After(t, k, order), n, k) <==> RemovesSafely(t, k, order)
  {
    if !Collapses(t, k, order) {
      NoCollapseRemoves(t, n, k, order);
    } else {
      var lost := CollapseLoses(t, n, k, order);
      if t.kids[k[0]].Leaf? {
        CollapseAtTheTop(t, n, k, order);
      } else {
        CollapseBelow(t, n, k, order);
      }
    }
  }

  /** The walk down for `k` comes to a leaf, whether or not that holds it. */
  predicate EndsInLeaf(t: Tree, k: Tail) {
    match t
    case Leaf(_) => true
    case Node(kids) => |k| > 0 && k[0] in kids && EndsInLeaf(kids[k[0]], k[1..])
  }

  /** An address that is not there is an error at a leaf, and a panic at a branch without the link; either way the
      tree stays as it is. */
  lemma {:induction false} RemoveOfMissing(t: Tree, n: nat, k: Tail, order: seq<Nibble>)
    requires WellFormed(t, n) && |k| == n
    ensures RemoveTree(t, k, order).Removed? <==> Find(t, k).Some?
    ensures RemoveTree(t, k, order).NotFound? <==> EndsInLeaf(t, k) && Find(t, k).None?
    ensures RemoveTree(t, k, order).NoLink? <==> !EndsInLeaf(t, k)
    ensures Find(t, k).None? ==> After(t, k, order) == t
  {
    if t.Node? && k[0] in t.kids { RemoveOfMissing(t.kids[k[0]], n - 1, k[1..], order); }
  }

  lemma CollapseAtTheTop(t: Tree, n: nat, k: Tail, order: seq<Nibble>)
    requires WellFormed(t, n) && Find(t, k).Some? && Collapses(t, k, order) && t.kids[k[0]].Leaf?
    ensures Without(t, After(t, k, order), n, k) <==> OnlyAddress(t, k)
  {
    var u := After(t, k, order);
    forall j | |j| == n ensures Find(u, j).None? { CollapsedHasShortTails(t, n, k, order, j); }
    if Without(t, u, n, k) {
      forall j | Find(t, j).Some? ensures j == k {
        FoundLength(t, n, j);
        assert Find(u, j).None?;
      }
    }
  }

  /** Unlinking a whole child is deletion exactly when the child held nothing else. */
  lemma UnlinkedChild(t: Tree, u: Tree, n: nat, k: Tail)
    requires t.Node? && WellFormed(t, n) && Find(t, k).Some?
    requires u == Node(t.kids - {k[0]})
    ensures Without(t, u, n, k) <==> OnlyAddress(t.kids[k[0]], k[1..])
  {
    FoundLength(t, n, k);
    if Without(t, u, n, k) {
      forall s | Find(t.kids[k[0]], s).Some? ensures s == k[1..] {
        FoundLength(t.kids[k[0]], n - 1, s);
        var j := [k[0]] + s;
        assert j[1..] == s;
        assert Find(u, j).None?;
        assert Find(u, j) == if j == k then None else Find(t, j);
      }
    }
    if OnlyAddress(t.kids[k[0]], k[1..]) {
      forall j | |j| == n ensures Find(u, j) == if j == k then None else Find(t, j) {
        SameTail(j, k);
      }
    }
  }

  lemma CollapseBelow(t: Tree, n: nat, k: Tail, order: seq<Nibble>)
    requires WellFormed(t, n) && Find(t, k).Some? && Collapses(t, k, order) && t.kids[k[0]].Node?
    ensures Without(t, After(t, k, order), n, k) <==> OnlyAddress(t.kids[k[0]], k[1..])
  {
    var kid := t.kids[k[0]];
    var lost := CollapseLoses(t, n, k, order);
    var lostBelow := CollapseLoses(kid, n - 1, k[1..], order);
    var below := RemoveTree(kid, k[1..], order);
    if |below.remain| == 0 {
      assert After(t, k, order) == Node(t.kids - {k[0]});
      UnlinkedChild(t, After(t, k, order), n, k);
    } else {
      assert Find(kid, lostBelow).Some? && lostBelow != k[1..];
      assert Find(After(t, k, order), lost) != Find(t, lost);
    }
  }

  /** A safe removal leaves a well-formed tree behind. */
  lemma RemoveKeepsShape(t: Tree, n: nat, k: Tail, order: seq<Nibble>)
    requires WellFormed(t, n) && n > 0 && Find(t, k).Some? && RemovesSafely(t, k, order)
    ensures RemoveTree(t, k, order).Removed? && WellFormed(After(t, k, order), n)
  {
    if !Collapses(t, k, order) {
      NoCollapseRemoves(t, n, k, order);
    } else {
      var lost := CollapseLoses(t, n, k, order);
      if t.kids[k[0]].Leaf? {
        CollapseAtTheTop(t, n, k, order);
      } else {
        CollapseBelow(t, n, k, order);
        var below := RemoveTree(t.kids[k[0]], k[1..], order);
        var lostBelow := CollapseLoses(t.kids[k[0]], n - 1, k[1..], order);
      }
    }
  }

  lemma {:induction false} RemoveKeepsBound(t: Tree, d: nat, k: Tail, order: seq<Nibble>)
    requires Bounded(t, d) && RemoveTree(t, k, order).Removed?
    ensures Bounded(After(t, k, order), d)
  {
    match t
    case Leaf(m) =>
      SubsetSize((m - {k}).Keys, m.Keys);
    case Node(kids) =>
      RemoveKeepsBound(kids[k[0]], d + 1, k[1..], order);
  }

  // ---- The visiting order ---------------------------------------------------------------------------

  /** All tails of the leaf siblings and of what is left of the changed leaf, nibbles dropped. */
  function Tails(kids: map<Nibble, Tree>, skip: Nibble, own: Stamps): set<Tail> {
    own.Keys + (set c, s | c in kids && c != skip && kids[c].Leaf? && s in kids[c].entries :: s)
  }

  /** No sibling has links, which would stop the walk. */
  ghost predicate OnlyLeaves(t: Tree, skip: Nibble) {
    t.Node? && forall c :: c in t.kids && c != skip ==> t.kids[c].Leaf? || |t.kids[c].kids| == 0
  }

  ghost predicate EveryNibble(order: seq<Nibble>) {
    forall c: Nibble :: c in order
  }

  ghost predicate HasTail(kids: map<Nibble, Tree>, skip: Nibble, c: Nibble, s: Tail) {
    c != skip && c in kids && kids[c].Leaf? && s in kids[c].entries
  }

  lemma {:induction false} CollectedSize(kids: map<Nibble, Tree>, skip: Nibble, order: seq<Nibble>, acc: Stamps,
                                         all: set<Tail>)
    requires OnlyLeaves(Node(kids), skip)
    requires acc.Keys <= all && forall c, s :: HasTail(kids, skip, c, s) ==> s in all
    requires forall s :: s in all && s !in acc ==> exists c :: c in order && HasTail(kids, skip, c, s)
    ensures |Collect(kids, skip, order, acc)| <= LEAF_CAPACITY <==> |all| <= LEAF_CAPACITY
  {
    if order == [] {
      assert acc.Keys == all;
    } else {
      var c, rest := order[0], order[1..];
      if c == skip || c !in kids {
        CollectedSize(kids, skip, rest, acc, all);
      } else {
        var acc' := if kids[c].Leaf? then acc + kids[c].entries else acc;
        assert forall s :: kids[c].Leaf? && s in kids[c].entries ==> HasTail(kids, skip, c, s);
        SubsetSize(acc'.Keys, all);
        if |acc'| <= LEAF_CAPACITY { CollectedSize(kids, skip, rest, acc', all); }
      }
    }
  }

  lemma TailsDecide(kids: map<Nibble, Tree>, skip: Nibble, order: seq<Nibble>, own: Stamps)
    requires OnlyLeaves(Node(kids), skip) && EveryNibble(order)
    ensures |Collect(kids, skip, order, own)| <= LEAF_CAPACITY <==> |Tails(kids, skip, own)| <= LEAF_CAPACITY
  {
    var all := Tails(kids, skip, own);
    forall s | s in all && s !in own ensures exists c :: c in order && HasTail(kids, skip, c, s) {
      var c :| c in kids && c != skip && kids[c].Leaf? && s in kids[c].entries;
      assert c in order && HasTail(kids, skip, c, s);
    }
    CollectedSize(kids, skip, order, own, all);
  }

  /** Where no sibling of the changed leaf has links, whether the branch collapses depends on the
      number of distinct tails only; if more than sixteen stay, the result is the same for every
      visiting order. */
  lemma {:induction false} OrderOfVisitsDoesNotMatter(t: Tree, n: nat, k: Tail, order: seq<Nibble>, order': seq<Nibble>)
    requires WellFormed(t, n) && Find(t, k).Some? && EveryNibble(order) && EveryNibble(order')
    requires ParentHasOnlyLeaves(t, k)
    ensures Collapses(t, k, order) <==> Collapses(t, k, order')
    ensures !Collapses(t, k, order) ==> After(t, k, order) == After(t, k, order')
  {
    if t.Node? {
      var c, kid := k[0], t.kids[k[0]];
      if kid.Leaf? {
        TailsDecide(t.kids, c, order, kid.entries - {k[1..]});
        TailsDecide(t.kids, c, order', kid.entries - {k[1..]});
      } else {
        OrderOfVisitsDoesNotMatter(kid, n - 1, k[1..], order, order');
      }
      if !Collapses(t, k, order) {
        NoCollapseRemoves(kid, n - 1, k[1..], order);
        NoCollapseRemoves(kid, n - 1, k[1..], order');
      }
    }
  }

  ghost predicate ParentHasOnlyLeaves(t: Tree, k: Tail) {
    t.Node? && k != [] && k[0] in t.kids ==>
      if t.kids[k[0]].Leaf? then OnlyLeaves(t, k[0]) else ParentHasOnlyLeaves(t.kids[k[0]], k[1..])
  }

  // ---- What a collapse keeps ------------------------------------------------------------------------------

  /** `c` is visited at place `i` and holds the tail `s`. */
  ghost predicate Holder(kids: map<Nibble, Tree>, skip: Nibble, order: seq<Nibble>, i: nat, s: Tail) {
    i < |order| && order[i] != skip && order[i] in kids && kids[order[i]].Leaf? && s in kids[order[i]].entries
  }

  ghost predicate LastHolder(kids: map<Nibble, Tree>, skip: Nibble, order: seq<Nibble>, i: nat, s: Tail) {
    Holder(kids, skip, order, i, s) && forall j :: i < j < |order| ==> !Holder(kids, skip, order, j, s)
  }

  /** When the siblings are leaves and fit together, a tail that several of them hold comes with the timestamp of
      the one that happens to be visited last; one that no sibling holds stays as it was. */
  lemma {:induction false} CollapseKeepsLast(kids: map<Nibble, Tree>, skip: Nibble, order: seq<Nibble>, own: Stamps,
                                             s: Tail, i: nat)
    requires OnlyLeaves(Node(kids), skip) && |Collect(kids, skip, order, own)| <= LEAF_CAPACITY
    ensures LastHolder(kids, skip, order, i, s) ==>
              Get(Collect(kids, skip, order, own), s) == Some(kids[order[i]].entries[s])
    ensures (forall j :: !Holder(kids, skip, order, j, s)) ==>
              Get(Collect(kids, skip, order, own), s) == Get(own, s)
  {
    if order != [] {
      var c, rest := order[0], order[1..];
      forall j: nat ensures Holder(kids, skip, rest, j, s) <==> Holder(kids, skip, order, j + 1, s) {
        assert j < |rest| ==> rest[j] == order[j + 1];
      }
      var next := if c != skip && c in kids && kids[c].Leaf? then own + kids[c].entries else own;
      assert Collect(kids, skip, order, own) == Collect(kids, skip, rest, next);
      hide Collect;
      CollapseKeepsLast(kids, skip, rest, next, s, if i > 0 then i - 1 else 0);
      assert Holder(kids, skip, order, 0, s) <==> c != skip && c in kids && kids[c].Leaf? && s in kids[c].entries;
      if i > 0 && LastHolder(kids, skip, order, i, s) {
        forall j | i - 1 < j < |rest| ensures !Holder(kids, skip, rest, j, s) {
          assert !Holder(kids, skip, order, j + 1, s);
        }
      }
    }
  }

  // ---- Safe in every order ----------------------------------------------------------------------------

  /** The branch above the target leaf survives whatever the order: the leaf keeps more than sixteen entries, or
      no sibling has links and more than sixteen distinct tails stay. */
  ghost predicate NeverCollapses(t: Tree, k: Tail) {
    t.Node? && k != [] && k[0] in t.kids ==>
      match t.kids[k[0]]
      case Leaf(m) =>
        var own := m - {k[1..]};
        |own| > LEAF_CAPACITY || (OnlyLeaves(t, k[0]) && |Tails(t.kids, k[0], own)| > LEAF_CAPACITY)
      case Node(_) => NeverCollapses(t.kids[k[0]], k[1..])
  }

  /** Nothing else is there to lose: below the branch itself when it is the root, otherwise below the root's
      whole child. */
  ghost predicate AloneBelow(t: Tree, k: Tail)
    requires t.Node? ==> k != [] && k[0] in t.kids
  {
    t.Node? && if t.kids[k[0]].Leaf? then OnlyAddress(t, k) else OnlyAddress(t.kids[k[0]], k[1..])
  }

  lemma {:induction false} CollectGrows(kids: map<Nibble, Tree>, skip: Nibble, order: seq<Nibble>, acc: Stamps)
    ensures acc.Keys <= Collect(kids, skip, order, acc).Keys
  {
    if order != [] {
      var c := order[0];
      if c == skip || c !in kids || kids[c].Node? {
        CollectGrows(kids, skip, order[1..], acc);
      } else {
        CollectGrows(kids, skip, order[1..], acc + kids[c].entries);
      }
    }
  }

  lemma {:induction false} NeverMeansNever(t: Tree, n: nat, k: Tail, order: seq<Nibble>)
    requires WellFormed(t, n) && Find(t, k).Some? && EveryNibble(order) && NeverCollapses(t, k)
    ensures !Collapses(t, k, order)
  {
    hide Collect, Tails;
    if t.Node? {
      var c, kid := k[0], t.kids[k[0]];
      if kid.Leaf? {
        var own := kid.entries - {k[1..]};
        if |own| > LEAF_CAPACITY {
          CollectGrows(t.kids, c, order, own);
          SubsetSize(own.Keys, Collect(t.kids, c, order, own).Keys);
        } else {
          TailsDecide(t.kids, c, order, own);
        }
      } else {
        NeverMeansNever(kid, n - 1, k[1..], order);
      }
    }
  }

  const NIBBLES: seq<Nibble> := [0, 1, 2, 3, 4, 5, 6, 7, 8, 9, 10, 11, 12, 13, 14, 15]

  lemma NibblesAreEvery(d: Nibble)
    ensures EveryNibble(NIBBLES) && EveryNibble([d] + NIBBLES)
  {
    forall c: Nibble ensures c in NIBBLES { assert NIBBLES[c] == c; }
  }

  /** Otherwise some order makes it collapse: a sibling with links visited first stops the walk at once. */
  lemma {:induction false} CollapsingOrder(t: Tree, n: nat, k: Tail) returns (order: seq<Nibble>)
    requires WellFormed(t, n) && Find(t, k).Some? && !NeverCollapses(t, k)
    ensures EveryNibble(order) && Collapses(t, k, order)
  {
    var c, kid := k[0], t.kids[k[0]];
    if kid.Leaf? {
      var own := kid.entries - {k[1..]};
      NibblesAreEvery(c);
      if OnlyLeaves(t, c) {
        order := NIBBLES;
        TailsDecide(t.kids, c, order, own);
      } else {
        var d :| d in t.kids && d != c && t.kids[d].Node? && |t.kids[d].kids| > 0;
        NibblesAreEvery(d);
        order := [d] + NIBBLES;
        assert Collect(t.kids, c, order, own) == own;
      }
    } else {
      order := CollapsingOrder(kid, n - 1, k[1..]);
    }
  }

  /** Go visits the links in an order that nobody knows beforehand: removing a present address is map deletion
      for every order exactly when the branch above it never collapses, or nothing else was there to lose. */
  lemma RemoveIsExactInEveryOrder(t: Tree, n: nat, k: Tail)
    requires WellFormed(t, n) && Find(t, k).Some?
    ensures (forall order :: EveryNibble(order) ==> Without(t, After(t, k, order), n, k)) <==>
            NeverCollapses(t, k) || AloneBelow(t, k)
  {
    hide Collect, RemoveTree, After, Tails, Without;
    if NeverCollapses(t, k) || AloneBelow(t, k) {
      forall order | EveryNibble(order) ensures Without(t, After(t, k, order), n, k) {
        RemoveIsExact(t, n, k, order);
        if NeverCollapses(t, k) { NeverMeansNever(t, n, k, order); }
      }
    } else {
      var order := CollapsingOrder(t, n, k);
      RemoveIsExact(t, n, k, order);
    }
  }

  // ---- The canonical form survives safe removals ------------------------------------------------------

  lemma {:induction false} Shrink(s: set<Tail>, n: nat) returns (r: set<Tail>)
    requires |s| >= n
    ensures r <= s && |r| == n
  {
    if |s| == n {
      r := s;
    } else {
      var x :| x in s;
      r := Shrink(s - {x}, n);
    }
  }

  /** Every tail of `s` can be found below some nibble. */
  ghost predicate FoundBelow(t: Tree, s: set<Tail>) {
    forall x :: x in s ==> exists c: Nibble :: Find(t, [c] + x).Some?
  }

  /** Distinct tails found below a branch are distinct addresses. */
  lemma {:induction false} AddressesFor(t: Tree, s: set<Tail>) returns (r: set<Tail>)
    requires FoundBelow(t, s)
    ensures |r| == |s| && Reaches(t, r)
    ensures forall a :: a in r ==> |a| > 0 && a[1..] in s
  {
    if x :| x in s {
      var rest := AddressesFor(t, s - {x});
      var c: Nibble :| Find(t, [c] + x).Some?;
      assert ([c] + x)[1..] == x;
      r := rest + {[c] + x};
    } else {
      r := {};
    }
  }

  lemma ParentCovers(kids: map<Nibble, Tree>, c: Nibble)
    requires c in kids && CoversMoreThanALeaf(kids[c])
    ensures CoversMoreThanALeaf(Node(kids))
  {
    var s: set<Tail> :| |s| == LEAF_CAPACITY + 1 && Reaches(kids[c], s);
    var full := set x | x in s :: [c] + x;
    PrefixSize(c, s);
    forall a | a in full ensures Find(Node(kids), a).Some? {
      var x :| x in s && a == [c] + x;
      assert a[1..] == x;
    }
    assert Reaches(Node(kids), full);
  }

  lemma SurvivorFound(t: Tree, n: nat, k: Tail, order: seq<Nibble>, s: Tail) returns (c: Nibble)
    requires WellFormed(t, n) && Find(t, k).Some? && t.Node? && t.kids[k[0]].Leaf?
    requires s in Collect(t.kids, k[0], order, t.kids[k[0]].entries - {k[1..]})
    ensures Find(t, [c] + s).Some? && [c] + s != k
  {
    hide Collect;
    var own := t.kids[k[0]].entries - {k[1..]};
    c := k[0];
    if s !in own { c := CollectSource(t.kids, k[0], order, own, s); }
    assert ([c] + s)[1..] == s;
    SameTail([c] + s, k);
  }

  lemma SurvivorsCover(t: Tree, n: nat, k: Tail, order: seq<Nibble>)
    requires WellFormed(t, n) && Find(t, k).Some? && t.Node? && t.kids[k[0]].Leaf? && !Collapses(t, k, order)
    ensures CoversMoreThanALeaf(After(t, k, order))
  {
    NoCollapseRemoves(t, n, k, order);
    var all := Collect(t.kids, k[0], order, t.kids[k[0]].entries - {k[1..]});
    var u := After(t, k, order);
    assert |all.Keys| > LEAF_CAPACITY;
    assert forall j :: Find(u, j) == if j == k then None else Find(t, j);
    hide Collect, Find, RemoveTree, After, Collapses;
    var s := Shrink(all.Keys, LEAF_CAPACITY + 1);
    forall x | x in s ensures exists c: Nibble :: Find(u, [c] + x).Some? {
      var c := SurvivorFound(t, n, k, order, x);
      assert Find(u, [c] + x) == Find(t, [c] + x);
    }
    var r := AddressesFor(u, s);
  }

  /** Without a collapse, only the child on the way changes. */
  lemma OnlyOneChildChanges(t: Tree, n: nat, k: Tail, order: seq<Nibble>)
    requires WellFormed(t, n) && Find(t, k).Some? && !Collapses(t, k, order) && t.Node?
    ensures (After(t, k, order) == Node(t.kids - {k[0]}) && t.kids[k[0]].Leaf? && |t.kids[k[0]].entries| == 1)
         || (After(t, k, order) == Node(t.kids[k[0] := After(t.kids[k[0]], k[1..], order)]) &&
             (t.kids[k[0]].Leaf? ==> |t.kids[k[0]].entries| > 1))
  {
    hide Collect;
    var kid := t.kids[k[0]];
    NoCollapseRemoves(kid, n - 1, k[1..], order);
    if kid.Leaf? { assert kid.entries.Keys == (kid.entries - {k[1..]}).Keys + {k[1..]}; }
  }

  lemma {:induction false} NoCollapseKeepsCanonical(t: Tree, n: nat, k: Tail, order: seq<Nibble>)
    requires WellFormed(t, n) && Canonical(t) && Find(t, k).Some? && !Collapses(t, k, order)
    ensures Canonical(After(t, k, order)) || (t.Leaf? && |t.entries| == 1)
  {
    hide Collect;
    if t.Leaf? {
      SubsetSize((t.entries - {k}).Keys, t.entries.Keys);
      assert t.entries.Keys == (t.entries - {k}).Keys + {k};
    } else {
      NoCollapseKeepsCanonical(t.kids[k[0]], n - 1, k[1..], order);
      NodeKeepsCanonical(t, n, k, order);
    }
  }

  lemma NodeKeepsCanonical(t: Tree, n: nat, k: Tail, order: seq<Nibble>)
    requires WellFormed(t, n) && Canonical(t) && Find(t, k).Some? && !Collapses(t, k, order) && t.Node?
    requires var kid := t.kids[k[0]];
             Canonical(After(kid, k[1..], order)) || (kid.Leaf? && |kid.entries| == 1)
    ensures Canonical(After(t, k, order))
  {
    hide Collect, RemoveTree, After, CoversMoreThanALeaf;
    var c := k[0];
    OnlyOneChildChanges(t, n, k, order);
    if t.kids[c].Leaf? {
      SurvivorsCover(t, n, k, order);
    } else {
      OnlyOneChildChanges(t.kids[c], n - 1, k[1..], order);
      ParentCovers(After(t, k, order).kids, c);
    }
  }

  /** Removing a present address from a canonical tree, when it is safe and not the last one, leaves a
      canonical tree. */
  lemma RemoveKeepsCanonical(t: Tree, n: nat, k: Tail, order: seq<Nibble>)
    requires WellFormed(t, n) && Canonical(t) && Find(t, k).Some? && RemovesSafely(t, k, order)
    requires !OnlyAddress(t, k)
    ensures Canonical(After(t, k, order))
  {
    if Collapses(t, k, order) {
      BranchIsNotAlone(if t.kids[k[0]].Leaf? then t else t.kids[k[0]],
                       if t.kids[k[0]].Leaf? then k else k[1..]);
    } else {
      if t.Leaf? && |t.entries| == 1 { LastEntry(t.entries, k); }
      NoCollapseKeepsCanonical(t, n, k, order);
    }
  }

  lemma LastEntry(m: Stamps, k: Tail)
    requires |m| == 1 && k in m
    ensures OnlyAddress(Leaf(m), k)
  {
    SubsetSize({k}, m.Keys);
  }

  lemma BranchIsNotAlone(t: Tree, k: Tail)
    requires t.Node? && Canonical(t)
    ensures !OnlyAddress(t, k)
  {
    var s: set<Tail> :| |s| == LEAF_CAPACITY + 1 && Reaches(t, s);
    if OnlyAddress(t, k) {
      SubsetSize(s, {k});
    }
  }

  // ---- The smallest loss ------------------------------------------------------------------------------

  /** Two addresses under one branch, one nibble apart from the start. */
  function TwoLeaves(c: Nibble, x: Tail, v: nat, d: Nibble, y: Tail, w: nat): Tree {
    Node(map[c := Leaf(map[x := v]), d := Leaf(map[y := w])])
  }

  lemma TwoLeavesFound(c: Nibble, x: Tail, v: nat, d: Nibble, y: Tail, w: nat)
    requires c != d && |x| == ADDRESS_LENGTH - 1 && |y| == ADDRESS_LENGTH - 1
    ensures WellFormed(TwoLeaves(c, x, v, d, y, w), ADDRESS_LENGTH)
    ensures Find(TwoLeaves(c, x, v, d, y, w), [c] + x) == Some(v)
    ensures Find(TwoLeaves(c, x, v, d, y, w), [d] + y) == Some(w)
  {
    assert ([c] + x)[1..] == x && ([d] + y)[1..] == y;
    assert x in map[x := v] && y in map[y := w];
  }

  lemma TwoLeavesCollapse(c: Nibble, x: Tail, v: nat, d: Nibble, y: Tail, w: nat, order: seq<Nibble>)
    requires c != d && |x| == ADDRESS_LENGTH - 1 && |y| == ADDRESS_LENGTH - 1 && EveryNibble(order)
    ensures Collapses(TwoLeaves(c, x, v, d, y, w), [c] + x, order)
  {
    var kids := TwoLeaves(c, x, v, d, y, w).kids;
    assert ([c] + x)[1..] == x && map[x := v] - {x} == map[];
    forall s | s in Tails(kids, c, map[]) ensures s in {y} {}
    SubsetSize(Tails(kids, c, map[]), {y});
    TailsDecide(kids, c, order, map[]);
  }

  /** A loss in the smallest of trees: removing one of two addresses makes the other unreadable. */
  lemma RemovalLosesAnAddress(c: Nibble, x: Tail, v: nat, d: Nibble, y: Tail, w: nat, order: seq<Nibble>)
    requires c != d && |x| == ADDRESS_LENGTH - 1 && |y| == ADDRESS_LENGTH - 1 && EveryNibble(order)
    ensures Find(TwoLeaves(c, x, v, d, y, w), [d] + y) == Some(w)
    ensures Find(After(TwoLeaves(c, x, v, d, y, w), [c] + x, order), [d] + y) == None
  {
    TwoLeavesFound(c, x, v, d, y, w);
    TwoLeavesCollapse(c, x, v, d, y, w, order);
    CollapsedHasShortTails(TwoLeaves(c, x, v, d, y, w), ADDRESS_LENGTH, [c] + x, order, [d] + y);
  }
}
