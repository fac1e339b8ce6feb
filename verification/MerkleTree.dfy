/** The merklehead as a mathematical tree: what addItemRecursive computes, and what the result means
    as an address -> timestamp map.  The code over the document store is in Merklehead.dfy and is
    proved equal to the functions here; removal is in MerkleRemove.dfy. */
module MerkleTree {
  import opened Basics

  /** One hexadecimal digit of an address; a tail is what is left of an address below some branch. */
  type Nibble = n: int | 0 <= n < 16
  type Tail = seq<Nibble>
  type Stamps = map<Tail, nat>

  const ADDRESS_LENGTH: nat := 40
  const LEAF_CAPACITY: nat := 16

  datatype Tree = Leaf(entries: Stamps) | Node(kids: map<Nibble, Tree>)

  /** What a reader who walks down the tree finds for a tail. */
  function Find(t: Tree, k: Tail): Option<nat> {
    match t
    case Leaf(m) => Get(m, k)
    case Node(kids) => if |k| > 0 && k[0] in kids then Find(kids[k[0]], k[1..]) else None
  }

  /** Two trees that no reader can tell apart. */
  ghost predicate SameMap(t: Tree, u: Tree) {
    forall k :: Find(t, k) == Find(u, k)
  }

  /** Every leaf is non-empty and holds tails of exactly the length its depth calls for. */
  ghost predicate WellFormed(t: Tree, n: nat) {
    match t
    case Leaf(m) => |m| > 0 && forall k :: k in m ==> |k| == n
    case Node(kids) => n > 0 && forall c :: c in kids ==> WellFormed(kids[c], n - 1)
  }

  /** A leaf at depth d holds at most 16 + d entries: a split reaches one level only. */
  ghost predicate Bounded(t: Tree, d: nat) {
    match t
    case Leaf(m) => |m| <= LEAF_CAPACITY + d
    case Node(kids) => forall c :: c in kids ==> Bounded(kids[c], d + 1)
  }

  /** The entries of `m` that start with `c`, without that nibble. */
  function Under(m: Stamps, c: Nibble): Stamps {
    map s | s in (set k | k in m && |k| > 0 :: k[1..]) && [c] + s in m :: m[[c] + s]
  }

  /** The first nibbles that occur in `m`. */
  function Heads(m: Stamps): set<Nibble> {
    set k | k in m && |k| > 0 :: k[0]
  }

  function Split(m: Stamps): Tree {
    Node(map c | c in Heads(m) :: Leaf(Under(m, c)))
  }

  /** merklehead.addItemRecursive on trees. */
  function AddTree(t: Tree, k: Tail, v: nat): Tree {
    match t
    case Leaf(m) =>
      if |m| < LEAF_CAPACITY then Leaf(m[k := v]) else Split(m[k := v])
    case Node(kids) =>
      if k == [] then t
      else if k[0] in kids then Node(kids[k[0] := AddTree(kids[k[0]], k[1..], v)])
      else Node(kids[k[0] := Leaf(map[k[1..] := v])])
  }

  // ---- Counting -----------------------------------------------------------------------------------

  lemma SubsetSize<T>(a: set<T>, b: set<T>)
    requires a <= b
    ensures |a| <= |b|
    ensures |a| == |b| ==> a == b
  {
    assert b == a + (b - a);
    assert |b| == |a| + |b - a|;
  }

  /** Putting the same nibble in front of every tail does not change how many there are. */
  lemma {:induction false} PrefixSize(c: Nibble, s: set<Tail>)
    ensures |set x | x in s :: [c] + x| == |s|
  {
    if x :| x in s {
      PrefixSize(c, s - {x});
      var rest := set y | y in s - {x} :: [c] + y;
      assert forall y: Tail :: ([c] + y)[1..] == y;
      assert [c] + x !in rest;
      assert (set y | y in s :: [c] + y) == rest + {[c] + x};
    } else {
      assert (set y | y in s :: [c] + y) == {};
    }
  }

  lemma UnderAt(m: Stamps, c: Nibble, s: Tail)
    ensures s in Under(m, c) <==> [c] + s in m
    ensures s in Under(m, c) ==> Under(m, c)[s] == m[[c] + s]
  {
    if [c] + s in m {
      assert ([c] + s)[1..] == s;
    }
  }

  lemma UnderSize(m: Stamps, c: Nibble)
    ensures |Under(m, c)| <= |m|
    ensures |Under(m, c)| == |m| <==> forall k :: k in m ==> |k| > 0 && k[0] == c
  {
    var keys := Under(m, c).Keys;
    var full := set x | x in keys :: [c] + x;
    PrefixSize(c, keys);
    SubsetSize(full, m.Keys);
    if forall k :: k in m ==> |k| > 0 && k[0] == c {
      forall k | k in m ensures k in full {
        assert k == [c] + k[1..];
        UnderAt(m, c, k[1..]);
      }
      assert full == m.Keys;
    }
  }

  /** A leaf that is about to split is not at the bottom: there is only one tail of length zero. */
  lemma FullLeafHasNibbles(m: Stamps, n: nat)
    requires forall k :: k in m ==> |k| == n
    requires |m| > 1
    ensures n > 0
  {
    if n == 0 {
      SubsetSize(m.Keys, {[]});
    }
  }

  // ---- Adding -------------------------------------------------------------------------------------

  lemma SplitFind(m: Stamps, k: Tail)
    requires [] !in m
    ensures Find(Split(m), k) == Get(m, k)
  {
    if |k| > 0 {
      UnderAt(m, k[0], k[1..]);
      assert [k[0]] + k[1..] == k;
    }
  }

  lemma SplitShape(m: Stamps, n: nat)
    requires n > 0 && forall k :: k in m ==> |k| == n
    ensures WellFormed(Split(m), n)
    ensures forall c :: c in Split(m).kids ==> |Under(m, c)| <= |m|
  {
    forall c | c in Heads(m) ensures WellFormed(Leaf(Under(m, c)), n - 1) && |Under(m, c)| <= |m| {
      var k :| k in m && |k| > 0 && k[0] == c;
      assert [c] + k[1..] == k;
      UnderAt(m, c, k[1..]);
      forall s | s in Under(m, c) ensures |s| == n - 1 { UnderAt(m, c, s); }
      UnderSize(m, c);
    }
  }

  /** Adding keeps the shape at every depth: wholly leaf or wholly branch, tails of the right length,
      leaves within their bound. */
  lemma {:induction false} AddKeepsShape(t: Tree, n: nat, d: nat, k: Tail, v: nat)
    requires WellFormed(t, n) && Bounded(t, d) && |k| == n
    ensures WellFormed(AddTree(t, k, v), n)
    ensures Bounded(AddTree(t, k, v), d)
  {
    match t
    case Leaf(m) =>
      var m' := m[k := v];
      assert m'.Keys == m.Keys + {k};
      if |m| >= LEAF_CAPACITY {
        FullLeafHasNibbles(m, n);
        SplitShape(m', n);
      }
    case Node(kids) =>
      if k[0] in kids { AddKeepsShape(kids[k[0]], n - 1, d + 1, k[1..], v); }
  }

  /** Adding is map update, at any depth and through every case of the code. */
  lemma {:induction false} AddRefinesUpdate(t: Tree, n: nat, k: Tail, v: nat)
    requires WellFormed(t, n) && |k| == n
    ensures forall j :: Find(AddTree(t, k, v), j) == if j == k then Some(v) else Find(t, j)
  {
    forall j ensures Find(AddTree(t, k, v), j) == if j == k then Some(v) else Find(t, j) {
      AddThenFind(t, n, k, v, j);
    }
  }

  lemma {:induction false} AddThenFind(t: Tree, n: nat, k: Tail, v: nat, j: Tail)
    requires WellFormed(t, n) && |k| == n
    ensures Find(AddTree(t, k, v), j) == if j == k then Some(v) else Find(t, j)
  {
    match t
    case Leaf(m) =>
      if |m| >= LEAF_CAPACITY {
        FullLeafHasNibbles(m, n);
        SplitFind(m[k := v], j);
      }
    case Node(kids) =>
      SameTail(j, k);
      if k[0] in kids && |j| > 0 { AddThenFind(kids[k[0]], n - 1, k[1..], v, j[1..]); }
  }

  lemma SameTail(j: Tail, k: Tail)
    requires |k| > 0
    ensures j == k <==> |j| > 0 && j[0] == k[0] && j[1..] == k[1..]
  {
    if |j| > 0 && j[0] == k[0] && j[1..] == k[1..] {
      assert j == [j[0]] + j[1..] == k;
    }
  }

  // ---- The canonical form -------------------------------------------------------------------------

  /** At least seventeen addresses can be found below `t`. */
  ghost predicate CoversMoreThanALeaf(t: Tree) {
    exists s: set<Tail> :: |s| == LEAF_CAPACITY + 1 && Reaches(t, s)
  }

  ghost predicate Reaches(t: Tree, s: set<Tail>) {
    forall k :: k in s ==> Find(t, k).Some?
  }

  /** Every leaf holds 1..16 entries and every branch covers at least 17 addresses. */
  ghost predicate Canonical(t: Tree) {
    match t
    case Leaf(m) => 1 <= |m| <= LEAF_CAPACITY
    case Node(kids) => CoversMoreThanALeaf(t) && forall c :: c in kids ==> Canonical(kids[c])
  }

  /** Something can be found in a canonical tree. */
  lemma CanonicalIsInhabited(t: Tree) returns (k: Tail)
    requires Canonical(t)
    ensures Find(t, k).Some?
  {
    match t
    case Leaf(m) =>
      k :| k in m;
    case Node(_) =>
      var s: set<Tail> :| |s| == LEAF_CAPACITY + 1 && Reaches(t, s);
      k :| k in s;
  }

  lemma LeafIsNotBranch(m: Stamps, t: Tree)
    requires Canonical(Leaf(m)) && Canonical(t) && SameMap(Leaf(m), t)
    ensures t.Leaf?
  {
    if t.Node? {
      var s: set<Tail> :| |s| == LEAF_CAPACITY + 1 && Reaches(t, s);
      forall k | k in s ensures k in m { assert Find(Leaf(m), k) == Find(t, k); }
      SubsetSize(s, m.Keys);
      assert false;
    }
  }

  lemma ChildOfSame(t: Tree, u: Tree, c: Nibble)
    requires t.Node? && u.Node? && c in t.kids && Canonical(t.kids[c]) && SameMap(t, u)
    ensures c in u.kids && SameMap(t.kids[c], u.kids[c])
  {
    var w := CanonicalIsInhabited(t.kids[c]);
    assert ([c] + w)[1..] == w;
    assert Find(t, [c] + w) == Find(u, [c] + w);
    forall k ensures Find(t.kids[c], k) == Find(u.kids[c], k) {
      assert ([c] + k)[1..] == k;
      assert Find(t, [c] + k) == Find(u, [c] + k);
    }
  }

  /** There is one canonical tree for each address -> timestamp map. */
  lemma {:induction false} CanonicalIsUnique(t: Tree, u: Tree)
    requires Canonical(t) && Canonical(u) && SameMap(t, u)
    ensures t == u
  {
    if t.Leaf? {
      LeafIsNotBranch(t.entries, u);
      forall k ensures Get(t.entries, k) == Get(u.entries, k) { assert Find(t, k) == Find(u, k); }
      SameEntries(t.entries, u.entries);
    } else {
      if u.Leaf? { LeafIsNotBranch(u.entries, t); }
      forall c: Nibble ensures Get(t.kids, c) == Get(u.kids, c) {
        if c in t.kids {
          ChildOfSame(t, u, c);
          CanonicalIsUnique(t.kids[c], u.kids[c]);
        } else if c in u.kids {
          ChildOfSame(u, t, c);
        }
      }
      SameEntries(t.kids, u.kids);
    }
  }

  lemma SameEntries<K, V>(m: map<K, V>, m': map<K, V>)
    requires forall k :: Get(m, k) == Get(m', k)
    ensures m == m'
  {
    forall k ensures k in m <==> k in m' { assert Get(m, k) == Get(m', k); }
    forall k | k in m ensures m[k] == m'[k] { assert Get(m, k) == Get(m', k); }
  }

  // ---- When adding keeps the canonical form ---------------------------------------------------------

  /** The guard a caller could evaluate: the leaf the address falls into has room, or the address is
      new there and the seventeen entries do not all continue with the same nibble. */
  predicate SplitsCleanly(t: Tree, k: Tail) {
    match t
    case Leaf(m) => |m| < LEAF_CAPACITY || (k !in m && |k| > 0 && exists j :: j in m && |j| > 0 && j[0] != k[0])
    case Node(kids) => |k| > 0 && k[0] in kids ==> SplitsCleanly(kids[k[0]], k[1..])
  }

  lemma SplitReachesAll(m: Stamps)
    requires [] !in m
    ensures Reaches(Split(m), m.Keys)
  {
    forall j | j in m.Keys ensures Find(Split(m), j).Some? { SplitFind(m, j); }
  }

  lemma PartsAreSmaller(m: Stamps, n: nat, j: Tail, k: Tail, c: Nibble)
    requires n > 0 && (forall x :: x in m ==> |x| == n) && |m| == LEAF_CAPACITY + 1
    requires j in m && k in m && j[0] != k[0] && c in Heads(m)
    ensures Canonical(Leaf(Under(m, c)))
  {
    UnderSize(m, c);
    SplitShape(m, n);
    assert c in Split(m).kids;
  }

  lemma CleanSplitIsCanonical(m: Stamps, n: nat, k: Tail, v: nat)
    requires WellFormed(Leaf(m), n) && |m| == LEAF_CAPACITY && |k| == n
    requires SplitsCleanly(Leaf(m), k)
    ensures Canonical(Split(m[k := v]))
  {
    var m' := m[k := v];
    assert m'.Keys == m.Keys + {k};
    SplitReachesAll(m');
    assert CoversMoreThanALeaf(Split(m'));
    var other :| other in m && |other| > 0 && other[0] != k[0];
    forall c | c in Heads(m') ensures Canonical(Leaf(Under(m', c))) { PartsAreSmaller(m', n, other, k, c); }
  }

  lemma UncleanSplitIsNotCanonical(m: Stamps, n: nat, k: Tail, v: nat)
    requires WellFormed(Leaf(m), n) && |m| == LEAF_CAPACITY && |k| == n
    requires !SplitsCleanly(Leaf(m), k)
    ensures !Canonical(Split(m[k := v]))
  {
    var m' := m[k := v];
    assert m'.Keys == m.Keys + {k};
    FullLeafHasNibbles(m, n);
    if k in m {
      forall s: set<Tail> | Reaches(Split(m'), s) ensures |s| <= LEAF_CAPACITY {
        forall j | j in s ensures j in m.Keys {
          assert Find(Split(m'), j).Some?;
          SplitFind(m', j);
        }
        SubsetSize(s, m.Keys);
      }
    } else {
      var c := k[0];
      UnderSize(m', c);
      assert k in m' && c in Heads(m');
      assert !Canonical(Split(m').kids[c]);
    }
  }

  lemma AddReachesMore(t: Tree, n: nat, k: Tail, v: nat)
    requires WellFormed(t, n) && |k| == n && CoversMoreThanALeaf(t)
    ensures CoversMoreThanALeaf(AddTree(t, k, v))
  {
    AddRefinesUpdate(t, n, k, v);
    var s: set<Tail> :| |s| == LEAF_CAPACITY + 1 && Reaches(t, s);
    forall j | j in s ensures Find(AddTree(t, k, v), j).Some? { assert Find(t, j).Some?; }
    assert Reaches(AddTree(t, k, v), s);
  }

  /** Adding to a canonical tree yields a canonical tree exactly when the split is clean. */
  lemma {:induction false} AddKeepsCanonical(t: Tree, n: nat, k: Tail, v: nat)
    requires WellFormed(t, n) && Canonical(t) && |k| == n
    ensures Canonical(AddTree(t, k, v)) <==> SplitsCleanly(t, k)
  {
    match t
    case Leaf(m) =>
      assert m[k := v].Keys == m.Keys + {k};
      if |m| >= LEAF_CAPACITY {
        if SplitsCleanly(t, k) { CleanSplitIsCanonical(m, n, k, v); } else { UncleanSplitIsNotCanonical(m, n, k, v); }
      }
    case Node(kids) =>
      AddReachesMore(t, n, k, v);
      var c, kids' := k[0], AddTree(t, k, v).kids;
      if c in kids { AddKeepsCanonical(kids[c], n - 1, k[1..], v); }
      assert c in kids' && forall d :: d in kids' ==> d == c || (d in kids && kids'[d] == kids[d]);
  }

  /** Setting an address once more splits a full leaf that already holds it: no reader notices, but the tree
      is another one than that of a leaf that was filled with the latest timestamps. */
  lemma SetAgainInFullLeaf(m: Stamps, k: Tail, v: nat)
    requires |m| == LEAF_CAPACITY && k in m && [] !in m
    ensures SameMap(AddTree(Leaf(m), k, v), Leaf(m[k := v])) && AddTree(Leaf(m), k, v) != Leaf(m[k := v])
    ensures Canonical(Leaf(m[k := v])) && !Canonical(AddTree(Leaf(m), k, v))
  {
    var m' := m[k := v];
    assert m'.Keys == m.Keys;
    forall j ensures Find(AddTree(Leaf(m), k, v), j) == Find(Leaf(m'), j) { SplitFind(m', j); }
    if Canonical(AddTree(Leaf(m), k, v)) { CanonicalIsUnique(AddTree(Leaf(m), k, v), Leaf(m')); }
  }

  // ---- Heads ----------------------------------------------------------------------------------------

  /** The merklehead starts as nil: no tree at all. */
  type Head = Option<Tree>

  function FindHead(h: Head, k: Tail): Option<nat> {
    if h.None? then None else Find(h.value, k)
  }

  ghost predicate GoodHead(h: Head) {
    h.Some? ==> WellFormed(h.value, ADDRESS_LENGTH) && Bounded(h.value, 0)
  }

  /** merklehead.Add on heads. */
  function AddHead(h: Head, k: Tail, v: nat): Head {
    if h.None? then Some(Leaf(map[k := v])) else Some(AddTree(h.value, k, v))
  }
}
