/** Whole runs of merklehead.Add and merklehead.Remove, starting from a nil merklehead. */
module MerkleRuns {
  import opened Basics
  import opened MerkleTree
  import opened MerkleRemove

  datatype Op = Add(address: Tail, stamp: nat) | Remove(address: Tail, order: seq<Nibble>)

  function Apply(h: Head, op: Op): Head {
    match op
    case Add(a, v) => AddHead(h, a, v)
    case Remove(a, order) => if h.None? then None else Some(After(h.value, a, order))
  }

  function Run(ops: seq<Op>): Head {
    if ops == [] then None else Apply(Run(ops[..|ops| - 1]), ops[|ops| - 1])
  }

  /** The map a run ought to build. */
  function Latest(ops: seq<Op>): Stamps {
    if ops == [] then map[]
    else
      var m := Latest(ops[..|ops| - 1]);
      match ops[|ops| - 1]
      case Add(a, v) => m[a := v]
      case Remove(a, _) => m - {a}
  }

  ghost predicate Addresses(ops: seq<Op>) {
    forall i :: 0 <= i < |ops| ==> |ops[i].address| == ADDRESS_LENGTH
  }

  ghost predicate SafeStep(h: Head, op: Op) {
    op.Remove? && FindHead(h, op.address).Some? ==> RemovesSafely(h.value, op.address, op.order)
  }

  /** Every removal of the run passes the guard. */
  ghost predicate RunsSafely(ops: seq<Op>) {
    ops == [] || (RunsSafely(ops[..|ops| - 1]) && SafeStep(Run(ops[..|ops| - 1]), ops[|ops| - 1]))
  }

  /** Additionally no addition splits a leaf uncleanly and no removal takes the last address. */
  ghost predicate CleanStep(h: Head, op: Op) {
    h.Some? ==>
      match op
      case Add(a, _) => SplitsCleanly(h.value, a)
      case Remove(a, _) => Find(h.value, a).Some? ==> !OnlyAddress(h.value, a)
  }

  ghost predicate RunsCleanly(ops: seq<Op>) {
    ops == [] || (RunsCleanly(ops[..|ops| - 1]) && CleanStep(Run(ops[..|ops| - 1]), ops[|ops| - 1]))
  }

  lemma AbsentStays(t: Tree, n: nat, k: Tail, order: seq<Nibble>)
    requires WellFormed(t, n) && Find(t, k).None?
    ensures After(t, k, order) == t
  {
    if t.Node? && k != [] && k[0] in t.kids { AbsentStays(t.kids[k[0]], n - 1, k[1..], order); }
  }

  ghost predicate Shown(h: Head, m: Stamps) {
    forall k :: FindHead(h, k) == Get(m, k)
  }

  lemma StepShows(h: Head, op: Op, m: Stamps)
    requires GoodHead(h) && Shown(h, m) && |op.address| == ADDRESS_LENGTH && SafeStep(h, op)
    ensures GoodHead(Apply(h, op))
    ensures Shown(Apply(h, op), match op case Add(a, v) => m[a := v] case Remove(a, _) => m - {a})
  {
    match op
    case Add(a, v) =>
      if h.Some? {
        AddKeepsShape(h.value, ADDRESS_LENGTH, 0, a, v);
        AddRefinesUpdate(h.value, ADDRESS_LENGTH, a, v);
      }
      forall k ensures FindHead(Apply(h, op), k) == Get(m[a := v], k) { assert FindHead(h, k) == Get(m, k); }
    case Remove(a, order) =>
      if h.Some? && Find(h.value, a).Some? {
        RemovalShows(h.value, a, order, m);
      } else {
        if h.Some? { AbsentStays(h.value, ADDRESS_LENGTH, a, order); }
        assert FindHead(h, a) == Get(m, a);
        assert m - {a} == m;
      }
  }

  lemma RemovalShows(t: Tree, a: Tail, order: seq<Nibble>, m: Stamps)
    requires GoodHead(Some(t)) && Shown(Some(t), m) && |a| == ADDRESS_LENGTH
    requires Find(t, a).Some? && RemovesSafely(t, a, order)
    ensures GoodHead(Some(After(t, a, order))) && Shown(Some(After(t, a, order)), m - {a})
  {
    var u := After(t, a, order);
    RemoveIsExact(t, ADDRESS_LENGTH, a, order);
    RemoveKeepsShape(t, ADDRESS_LENGTH, a, order);
    RemoveKeepsBound(t, 0, a, order);
    forall k ensures FindHead(Some(u), k) == Get(m - {a}, k) {
      assert FindHead(Some(t), k) == Get(m, k);
      if |k| != ADDRESS_LENGTH {
        if Find(t, k).Some? { FoundLength(t, ADDRESS_LENGTH, k); }
        if Find(u, k).Some? { FoundLength(u, ADDRESS_LENGTH, k); }
      }
    }
  }

  /** After any run whose removals pass the guard, a reader finds exactly the latest timestamps of the
      addresses not removed since, and the tree has kept its shape. */
  lemma {:induction false} RunIsLatest(ops: seq<Op>)
    requires Addresses(ops) && RunsSafely(ops)
    ensures GoodHead(Run(ops)) && Shown(Run(ops), Latest(ops))
  {
    if ops != [] {
      RunIsLatest(ops[..|ops| - 1]);
      StepShows(Run(ops[..|ops| - 1]), ops[|ops| - 1], Latest(ops[..|ops| - 1]));
    }
  }

  lemma {:induction false} CleanRunIsCanonical(ops: seq<Op>)
    requires Addresses(ops) && RunsSafely(ops) && RunsCleanly(ops)
    ensures Run(ops).Some? ==> Canonical(Run(ops).value)
  {
    if ops != [] {
      var init, op := ops[..|ops| - 1], ops[|ops| - 1];
      CleanRunIsCanonical(init);
      RunIsLatest(init);
      if Run(init).Some? {
        var t := Run(init).value;
        if op.Add? {
          AddKeepsCanonical(t, ADDRESS_LENGTH, op.address, op.stamp);
        } else if Find(t, op.address).Some? {
          RemoveKeepsCanonical(t, ADDRESS_LENGTH, op.address, op.order);
        } else {
          AbsentStays(t, ADDRESS_LENGTH, op.address, op.order);
        }
      }
    }
  }

  /** A clean run ends with nil exactly when it never added anything. */
  lemma {:induction false} CleanRunIsInhabited(ops: seq<Op>)
    requires Addresses(ops) && RunsSafely(ops) && RunsCleanly(ops)
    ensures Run(ops).None? <==> Latest(ops) == map[]
  {
    RunIsLatest(ops);
    if Run(ops).Some? {
      CleanRunIsCanonical(ops);
      var k := CanonicalIsInhabited(Run(ops).value);
      assert FindHead(Run(ops), k) == Get(Latest(ops), k);
    } else {
      forall k ensures k !in Latest(ops) { assert FindHead(Run(ops), k) == Get(Latest(ops), k); }
    }
  }

  /** The merklehead does not depend on history: two clean runs that end with the same
      address -> timestamp map end with the same tree, hence with the same head bytes. */
  lemma HistoryDoesNotMatter(ops: seq<Op>, ops': seq<Op>)
    requires Addresses(ops) && RunsSafely(ops) && RunsCleanly(ops)
    requires Addresses(ops') && RunsSafely(ops') && RunsCleanly(ops')
    requires Latest(ops) == Latest(ops')
    ensures Run(ops) == Run(ops')
  {
    RunIsLatest(ops);
    RunIsLatest(ops');
    CleanRunIsCanonical(ops);
    CleanRunIsCanonical(ops');
    CleanRunIsInhabited(ops);
    CleanRunIsInhabited(ops');
    if Run(ops).Some? {
      var t, u := Run(ops).value, Run(ops').value;
      forall k ensures Find(t, k) == Find(u, k) {
        assert FindHead(Run(ops), k) == FindHead(Run(ops'), k);
      }
      CanonicalIsUnique(t, u);
    }
  }
}
