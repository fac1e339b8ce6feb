/** Disabling is exact: on an acyclic invite graph whose inviter and invited lists mirror each other,
    removing one inviter disables exactly the accounts that have lost every inviter. */
module CascadeDisable {
  import opened Basics
  import opened DeltaLogs
  import opened Accounts
  import opened Cascade

  type Rank = Address -> nat
  type Edge = (Address, Address)

  /** The state before the cascade, the root account, heights in the invite graph with a bound, and the edge
      that is removed: from an inviter to the account it invites. */
  datatype Graph = Graph(base: State, root: Address, rank: Rank, height: nat, top: Edge)

  // ---- The graph --------------------------------------------------------------------------------------

  ghost predicate Invites(a: Account, c: Address) {
    exists j :: 0 <= j < |a.invited| && a.invited[j].account == c
  }

  /** Every invite leads to another stored account further down, and is active. */
  ghost predicate Sound(g: Graph, a: Account) {
    (forall j :: 0 <= j < |a.invited| ==>
       a.invited[j].account in g.base.accounts && a.invited[j].account != g.root && a.invited[j].active &&
       g.rank(a.invited[j].account) < g.rank(a.address)) &&
    (forall i, j :: 0 <= i < j < |a.invited| ==> a.invited[i].account != a.invited[j].account)
  }

  /** The inviter list of a (non-root) account: positive, pairwise different timestamps, one entry for each
      enabled account that invites it, the oldest one active, and no content older than that. */
  ghost predicate WellInvited(c: Account) {
    (c.enabled <==> c.inviters != []) &&
    (forall j :: 0 <= j < |c.inviters| ==> c.inviters[j].timestamp > 0) &&
    (forall i, j :: 0 <= i < j < |c.inviters| ==>
       c.inviters[i].timestamp != c.inviters[j].timestamp && c.inviters[i].account != c.inviters[j].account) &&
    (c.inviters != [] ==> Chosen(c.inviters) == Some(c.activeInviter)) &&
    (c.inviters != [] && c.content.Some? ==> c.activeInviter.timestamp <= c.timestamp)
  }

  ghost predicate Mirrored(base: State, c: Account, p: Address) {
    Has(c.inviters, p) <==> p in base.accounts && base.accounts[p].enabled && Invites(base.accounts[p], c.address)
  }

  /** An account with content is enabled exactly when the merklehead and the delta log show it. */
  ghost predicate InStepAt(s: State, c: Address) {
    var live := c in s.accounts && s.accounts[c].enabled && s.accounts[c].content.Some?;
    (c in s.merkle <==> live) && (live ==> s.merkle[c] == s.accounts[c].timestamp) &&
    (LogShows(s.history, c) <==> live)
  }

  /** The latest event of an account is not a removal. */
  ghost predicate LogShows(h: History, c: Address) {
    h != [] && if h[|h| - 1].account == c then !h[|h| - 1].removed else LogShows(h[..|h| - 1], c)
  }

  /** What the log has noted about an account, event by event: whether it was a removal. */
  function Flags(h: History, c: Address): seq<bool> {
    if h == [] then []
    else Flags(h[..|h| - 1], c) + if h[|h| - 1].account == c then [h[|h| - 1].removed] else []
  }

  /** The inviter of the edge about to be removed may already have forgotten it. */
  ghost predicate GoodAccount(g: Graph, c: Address) {
    c in g.base.accounts && g.base.accounts[c].address == c &&
    (g.base.accounts[c].enabled ==> Sound(g, g.base.accounts[c])) &&
    (c != g.root ==>
      WellInvited(g.base.accounts[c]) && forall p :: (p, c) != g.top ==> Mirrored(g.base, g.base.accounts[c], p))
  }

  ghost predicate Good(g: Graph) {
    (forall c :: InStepAt(g.base, c)) && forall c :: c in g.base.accounts ==> g.rank(c) < g.height && GoodAccount(g, c)
  }

  // ---- Where an account stands in the middle of a cascade ---------------------------------------------

  /** The inviters of `c` that have been taken away. */
  function Left(inviters: seq<Inviter>, gone: set<Edge>, c: Address): seq<Inviter> {
    if inviters == [] then []
    else (if (inviters[0].account, c) in gone then [] else [inviters[0]]) + Left(inviters[1..], gone, c)
  }

  /** Content is dropped as soon as the active invite is newer. */
  function Trimmed(b: Account, inviter: Inviter): Account {
    if b.content.Some? && inviter.timestamp > b.timestamp then WithoutContent(b) else b
  }

  ghost predicate SameContent(r: Account, b: Account) {
    r.content == b.content && r.timestamp == b.timestamp
  }

  /** `r` is what has become of the account `b` now that the edges `gone` are gone. The content of an account
      that has lost every inviter may have been dropped on the way, but not if there was only one. */
  ghost predicate Stands(b: Account, r: Account, gone: set<Edge>, root: Address) {
    r.address == b.address && r.invited == b.invited &&
    if b.address == root || b.inviters == [] then r == b
    else
      r.inviters == Left(b.inviters, gone, b.address) &&
      if r.inviters == [] then
        !r.enabled && r.activeInviter == NO_INVITER &&
        (SameContent(r, b) || (|b.inviters| > 1 && SameContent(r, WithoutContent(b))))
      else
        r.enabled && Chosen(r.inviters) == Some(r.activeInviter) && SameContent(r, Trimmed(b, r.activeInviter))
  }

  /** All accounts below rank `k` stand as `gone` says, and the indexes agree with them. */
  ghost predicate Standing(g: Graph, s: State, gone: set<Edge>, k: nat) {
    s.accounts.Keys == g.base.accounts.Keys &&
    (forall c :: c !in g.base.accounts || g.rank(c) < k ==> InStepAt(s, c)) &&
    (forall c :: c in g.base.accounts && g.rank(c) < k ==> Stands(g.base.accounts[c], s.accounts[c], gone, g.root))
  }

  /** Nothing about `c` differs between the two states. */
  ghost predicate Untouched(s: State, s': State, c: Address) {
    Get(s'.accounts, c) == Get(s.accounts, c) && Get(s'.merkle, c) == Get(s.merkle, c) &&
    (LogShows(s'.history, c) <==> LogShows(s.history, c)) && Flags(s'.history, c) == Flags(s.history, c)
  }

  /** Only `x` may differ. */
  ghost predicate OnlyAt(s: State, s': State, x: Address) {
    forall c {:trigger Untouched(s, s', c)} :: c != x ==> Untouched(s, s', c)
  }

  ghost predicate OnlyBelow(s: State, s': State, rank: Rank, r: nat) {
    forall c {:trigger Untouched(s, s', c)} :: rank(c) >= r ==> Untouched(s, s', c)
  }

  /** No edge out of `x` is gone. */
  ghost predicate NoneFrom(gone: set<Edge>, x: Address) {
    forall v {:trigger (x, v)} :: (x, v) !in gone
  }

  /** `u` had inviters and has lost them all. */
  ghost predicate LostAll(g: Graph, gone: set<Edge>, u: Address) {
    u in g.base.accounts && u != g.root && g.base.accounts[u].inviters != [] &&
      Left(g.base.accounts[u].inviters, gone, u) == []
  }

  /** Below rank `k`, accounts that have lost all inviters are no longer anybody's inviter, and apart from the
      edge the cascade began with, only such accounts are not. */
  ghost predicate Tight(g: Graph, gone: set<Edge>, k: nat) {
    (forall u, v :: g.rank(u) < k && LostAll(g, gone, u) && Invites(g.base.accounts[u], v) ==> (u, v) in gone) &&
    (forall u, v :: (u, v) in gone && g.rank(u) < k && (u, v) != g.top ==> LostAll(g, gone, u))
  }

  // ---- Lists ------------------------------------------------------------------------------------------

  lemma {:induction false} LeftMore(inviters: seq<Inviter>, gone: set<Edge>, p: Address, c: Address)
    ensures Left(inviters, gone + {(p, c)}, c) == WithoutInviter(Left(inviters, gone, c), p)
  {
    if inviters != [] {
      var i, rest := inviters[0], Left(inviters[1..], gone, c);
      LeftMore(inviters[1..], gone, p, c);
      assert (i.account, c) in gone + {(p, c)} <==> (i.account, c) in gone || i.account == p;
      if (i.account, c) in gone {
        assert [] + rest == rest;
        assert [] + WithoutInviter(rest, p) == WithoutInviter(rest, p);
      } else {
        assert ([i] + rest)[0] == i && ([i] + rest)[1..] == rest;
      }
    }
  }

  lemma {:induction false} LeftSame(inviters: seq<Inviter>, gone: set<Edge>, gone': set<Edge>, c: Address)
    requires forall p {:trigger (p, c)} :: (p, c) in gone <==> (p, c) in gone'
    ensures Left(inviters, gone, c) == Left(inviters, gone', c)
  {
    if inviters != [] { LeftSame(inviters[1..], gone, gone', c); }
  }

  lemma {:induction false} LeftEmptyStays(inviters: seq<Inviter>, gone: set<Edge>, gone': set<Edge>, c: Address)
    requires gone <= gone' && Left(inviters, gone, c) == []
    ensures Left(inviters, gone', c) == []
  {
    if inviters != [] {
      LeftEmptyStays(inviters[1..], gone, gone', c);
    }
  }

  lemma {:induction false} LeftHas(inviters: seq<Inviter>, gone: set<Edge>, c: Address, p: Address)
    ensures Has(Left(inviters, gone, c), p) <==> Has(inviters, p) && (p, c) !in gone
  {
    if inviters != [] {
      var i, rest := inviters[0], Left(inviters[1..], gone, c);
      LeftHas(inviters[1..], gone, c, p);
      assert inviters == [i] + inviters[1..];
      HasCons(i, inviters[1..], p);
      HasCons(i, rest, p);
      assert [] + rest == rest;
    }
  }

  lemma {:induction false} LeftEmpty(inviters: seq<Inviter>, gone: set<Edge>, c: Address)
    ensures Left(inviters, gone, c) == [] <==> forall j :: 0 <= j < |inviters| ==> (inviters[j].account, c) in gone
  {
    if inviters != [] {
      LeftEmpty(inviters[1..], gone, c);
      assert forall j :: 0 < j < |inviters| ==> inviters[j] == inviters[1..][j - 1];
    }
  }

  lemma HasCons(i: Inviter, rest: seq<Inviter>, p: Address)
    ensures Has([i] + rest, p) <==> i.account == p || Has(rest, p)
  {
    if i.account == p { assert ([i] + rest)[0].account == p; }
    if Has(rest, p) {
      var j :| 0 <= j < |rest| && rest[j].account == p;
      assert ([i] + rest)[j + 1].account == p;
    }
  }

  ghost predicate DistinctTimes(inviters: seq<Inviter>) {
    (forall j :: 0 <= j < |inviters| ==> inviters[j].timestamp > 0) &&
    (forall i, j :: 0 <= i < j < |inviters| ==> inviters[i].timestamp != inviters[j].timestamp)
  }

  lemma {:induction false} LeftIsPart(inviters: seq<Inviter>, gone: set<Edge>, c: Address)
    ensures forall j :: 0 <= j < |Left(inviters, gone, c)| ==> Left(inviters, gone, c)[j] in inviters
    ensures DistinctTimes(inviters) ==> DistinctTimes(Left(inviters, gone, c))
    ensures |Left(inviters, gone, c)| <= |inviters|
  {
    if inviters != [] {
      var i, rest, left := inviters[0], inviters[1..], Left(inviters[1..], gone, c);
      LeftIsPart(rest, gone, c);
      assert inviters == [i] + rest;
      if DistinctTimes([i] + rest) { DistinctCons(i, rest, left); }
      assert [] + left == left;
    }
  }

  lemma DistinctCons(i: Inviter, rest: seq<Inviter>, left: seq<Inviter>)
    requires DistinctTimes([i] + rest)
    requires DistinctTimes(rest) ==> DistinctTimes(left)
    requires forall j :: 0 <= j < |left| ==> left[j] in rest
    ensures DistinctTimes(rest) && DistinctTimes(left) && DistinctTimes([i] + left)
  {
    var whole, part := [i] + rest, [i] + left;
    forall m, n | 0 <= m < n < |rest| ensures rest[m].timestamp != rest[n].timestamp {
      assert whole[m + 1].timestamp != whole[n + 1].timestamp;
    }
    forall j | 0 <= j < |rest| ensures rest[j].timestamp > 0 { assert whole[j + 1].timestamp > 0; }
    forall j | 0 <= j < |left| ensures left[j].timestamp != i.timestamp && left[j].timestamp > 0 {
      var m :| 0 <= m < |rest| && rest[m] == left[j];
      assert whole[m + 1].timestamp != whole[0].timestamp;
    }
    assert whole[0].timestamp > 0 && forall j :: 0 < j < |part| ==> part[j] == left[j - 1];
  }

  /** With different timestamps the choice never fails. */
  lemma DistinctIsChosen(inviters: seq<Inviter>) returns (i: Inviter)
    requires inviters != [] && DistinctTimes(inviters)
    ensures Chosen(inviters) == Some(i) && i in inviters && i.timestamp > 0
    ensures forall j :: 0 <= j < |inviters| ==> i.timestamp <= inviters[j].timestamp
  {
    var k := ScanFinds(inviters);
    i := inviters[k];
    forall j | 0 <= j < |inviters| && j != k ensures i.timestamp < inviters[j].timestamp {
      assert i.timestamp != inviters[j].timestamp;
    }
    assert StrictlyOldest(inviters, i);
    ChosenIsOldest(inviters, i);
  }

  lemma {:induction false} LeftShrinks(inviters: seq<Inviter>, gone: set<Edge>, gone': set<Edge>, c: Address)
    requires gone <= gone'
    ensures forall j :: 0 <= j < |Left(inviters, gone', c)| ==> Left(inviters, gone', c)[j] in Left(inviters, gone, c)
  {
    if inviters != [] {
      var rest, rest' := Left(inviters[1..], gone, c), Left(inviters[1..], gone', c);
      LeftShrinks(inviters[1..], gone, gone', c);
      var head := if (inviters[0].account, c) in gone then [] else [inviters[0]];
      var head' := if (inviters[0].account, c) in gone' then [] else [inviters[0]];
      forall j | 0 <= j < |head' + rest'| ensures (head' + rest')[j] in head + rest {
        if j >= |head'| { assert (head' + rest')[j] == rest'[j - |head'|]; }
      }
    }
  }

  lemma {:induction false} LeftOfNothing(inviters: seq<Inviter>, c: Address)
    ensures Left(inviters, {}, c) == inviters
  {
    if inviters != [] { LeftOfNothing(inviters[1..], c); }
  }

  /** Taking inviters away makes the active invite newer, if it changes at all. */
  lemma NextInviter(inviters: seq<Inviter>, gone: set<Edge>, gone': set<Edge>, c: Address)
    returns (o: Inviter, i: Inviter)
    requires DistinctTimes(inviters) && gone <= gone' && Left(inviters, gone', c) != []
    requires forall i, j :: 0 <= i < j < |inviters| ==> inviters[i].account != inviters[j].account
    ensures Left(inviters, gone, c) != [] && Chosen(Left(inviters, gone, c)) == Some(o)
    ensures Chosen(Left(inviters, gone', c)) == Some(i)
    ensures 0 < o.timestamp <= i.timestamp
    ensures SameInviter(i, o) ==> i == o
  {
    LeftShrinks(inviters, gone, gone', c);
    LeftIsPart(inviters, gone, c);
    LeftIsPart(inviters, gone', c);
    assert Left(inviters, gone', c)[0] in Left(inviters, gone, c);
    o := DistinctIsChosen(Left(inviters, gone, c));
    i := DistinctIsChosen(Left(inviters, gone', c));
    assert i in Left(inviters, gone, c) && i in inviters && o in inviters;
    if SameInviter(i, o) {
      var m :| 0 <= m < |inviters| && inviters[m] == i;
      var n :| 0 <= n < |inviters| && inviters[n] == o;
      assert m == n;
    }
  }

  lemma LeftOfOne(inviters: seq<Inviter>, gone: set<Edge>, c: Address)
    requires |inviters| == 1 && Left(inviters, gone, c) != []
    ensures Left(inviters, gone, c) == inviters
  {
    assert inviters == [inviters[0]] && inviters[1..] == [];
    assert Left(inviters[1..], gone, c) == [];
  }

  lemma LogAppend(h: History, a: Address, removed: bool, c: Address)
    ensures LogShows(h + [Event(a, removed)], c) <==> if a == c then !removed else LogShows(h, c)
    ensures Flags(h + [Event(a, removed)], c) == if a == c then Flags(h, c) + [removed] else Flags(h, c)
  {
    assert (h + [Event(a, removed)])[..|h|] == h;
  }

  // ---- One step of the cascade ------------------------------------------------------------------------

  /** What removing the edge (p, x) adds to the removed edges. */
  ghost predicate Spread(gone: set<Edge>, gone': set<Edge>, p: Address, x: Address, rank: Rank) {
    gone <= gone' && (p, x) in gone' &&
    forall e :: e in gone' ==> e in gone || e == (p, x) || (rank(e.1) < rank(x) && rank(e.0) <= rank(x))
  }

  /** Only the edges into an account matter for how it stands. */
  lemma StandsSame(b: Account, r: Account, gone: set<Edge>, gone': set<Edge>, root: Address)
    requires Stands(b, r, gone, root)
    requires forall p {:trigger (p, b.address)} :: (p, b.address) in gone <==> (p, b.address) in gone'
    ensures Stands(b, r, gone', root)
  {
    LeftSame(b.inviters, gone, gone', b.address);
  }

  lemma InStepSame(s: State, s': State, c: Address)
    requires Untouched(s, s', c) && InStepAt(s, c)
    ensures InStepAt(s', c)
  {
  }

  /** Before the recursion goes below `x`: what is there stands with the edge (p, x) gone, too. */
  lemma Lower(g: Graph, s: State, s': State, gone: set<Edge>, k: nat, p: Address, x: Address)
    requires Good(g)
    requires Standing(g, s, gone, k) && s'.accounts.Keys == s.accounts.Keys && x in g.base.accounts && g.rank(x) < k
    requires OnlyAt(s, s', x)
    ensures Standing(g, s', gone + {(p, x)}, g.rank(x))
  {
    forall c | c in g.base.accounts && g.rank(c) < g.rank(x)
      ensures Stands(g.base.accounts[c], s'.accounts[c], gone + {(p, x)}, g.root)
    {
      assert GoodAccount(g, c) && Untouched(s, s', c);
      StandsSame(g.base.accounts[c], s.accounts[c], gone, gone + {(p, x)}, g.root);
    }
    forall c | c !in g.base.accounts || g.rank(c) < g.rank(x) ensures InStepAt(s', c) {
      assert Untouched(s, s', c);
      InStepSame(s, s', c);
    }
  }

  /** After the recursion: the accounts below `x` from the recursion, `x` itself, and the others untouched. */
  lemma Regain(g: Graph, s: State, s': State, gone: set<Edge>, gone': set<Edge>, k: nat, p: Address, x: Address)
    requires Good(g) && x in g.base.accounts && g.rank(x) < k
    requires Standing(g, s, gone, k) && Standing(g, s', gone', g.rank(x))
    requires Spread(gone, gone', p, x, g.rank)
    requires Stands(g.base.accounts[x], s'.accounts[x], gone', g.root) && InStepAt(s', x)
    requires forall c {:trigger Untouched(s, s', c)} :: g.rank(c) >= g.rank(x) && c != x ==> Untouched(s, s', c)
    ensures Standing(g, s', gone', k) && OnlyBelow(s, s', g.rank, g.rank(x) + 1)
  {
    forall c | c in g.base.accounts && g.rank(c) < k ensures Stands(g.base.accounts[c], s'.accounts[c], gone', g.root) {
      if g.rank(c) >= g.rank(x) && c != x {
        assert GoodAccount(g, c) && Untouched(s, s', c);
        StandsSame(g.base.accounts[c], s.accounts[c], gone, gone', g.root);
      }
    }
    forall c | c !in g.base.accounts || g.rank(c) < k ensures InStepAt(s', c) {
      if c in g.base.accounts && g.rank(c) >= g.rank(x) && c != x {
        assert Untouched(s, s', c);
        InStepSame(s, s', c);
      }
    }
  }

  lemma LostSame(g: Graph, gone: set<Edge>, gone': set<Edge>, u: Address)
    requires forall p {:trigger (p, u)} :: (p, u) in gone <==> (p, u) in gone'
    ensures LostAll(g, gone, u) <==> LostAll(g, gone', u)
  {
    if u in g.base.accounts { LeftSame(g.base.accounts[u].inviters, gone, gone', u); }
  }

  lemma LostStays(g: Graph, gone: set<Edge>, gone': set<Edge>, u: Address)
    requires gone <= gone' && LostAll(g, gone, u)
    ensures LostAll(g, gone', u)
  {
    LeftEmptyStays(g.base.accounts[u].inviters, gone, gone', u);
  }

  /** The same two steps for the edges themselves. */
  lemma TightLower(g: Graph, gone: set<Edge>, k: nat, p: Address, x: Address)
    requires Tight(g, gone, k) && g.rank(x) < k
    requires (p, x) == g.top || g.rank(p) >= k
    ensures Tight(g, gone + {(p, x)}, g.rank(x))
  {
    var gone' := gone + {(p, x)};
    forall u, v | g.rank(u) < g.rank(x) && LostAll(g, gone', u) && Invites(g.base.accounts[u], v)
      ensures (u, v) in gone'
    {
      LostSame(g, gone, gone', u);
    }
    forall u, v | (u, v) in gone' && g.rank(u) < g.rank(x) && (u, v) != g.top ensures LostAll(g, gone', u) {
      LostStays(g, gone, gone', u);
    }
  }

  lemma TightRaise(g: Graph, gone: set<Edge>, gone': set<Edge>, k: nat, p: Address, x: Address)
    requires Tight(g, gone, k) && g.rank(x) < k && x in g.base.accounts
    requires (p, x) == g.top || g.rank(p) >= k
    requires Tight(g, gone', g.rank(x)) && Spread(gone, gone', p, x, g.rank)
    requires forall u, v :: (u, v) in gone' && (u, v) !in gone && (u, v) != (p, x) && g.rank(u) == g.rank(x) ==> u == x
    requires LostAll(g, gone', x) ==> forall v :: Invites(g.base.accounts[x], v) ==> (x, v) in gone'
    requires forall v :: (x, v) in gone' && (x, v) != g.top ==> LostAll(g, gone', x)
    ensures Tight(g, gone', k)
  {
    forall u, v | g.rank(u) < k && LostAll(g, gone', u) && Invites(g.base.accounts[u], v) ensures (u, v) in gone' {
      if g.rank(u) >= g.rank(x) && u != x { LostSame(g, gone, gone', u); }
    }
    forall u, v | (u, v) in gone' && g.rank(u) < k && (u, v) != g.top ensures LostAll(g, gone', u) {
      if g.rank(u) >= g.rank(x) && u != x {
        assert (u, v) in gone;
        LostStays(g, gone, gone', u);
      }
    }
  }

  // ---- A call that changes nothing, and the two outcomes for an account that loses an inviter --------

  /** An account in order is left alone. */
  lemma NoChange(s: State, c: Address, root: Address, fuel: nat)
    requires c in s.accounts && c != root && fuel > 0
    requires
      var r := s.accounts[c];
      r.address == c && r.enabled && r.inviters != [] && Chosen(r.inviters) == Some(r.activeInviter) &&
      r.activeInviter.timestamp > 0 && (r.content.Some? ==> r.activeInviter.timestamp <= r.timestamp)
    ensures Update(s, s.accounts[c], root, fuel) == Done(s)
  {
    var r := s.accounts[c];
    assert s.accounts[c := r] == s.accounts;
    assert Enable(s, r, r.activeInviter, root, fuel - 1) == Finish(s, On(r, r.activeInviter), false, root, fuel - 1);
    assert On(r, r.activeInviter) == r;
  }

  /** How an account that has an inviter left stands, spelled out. */
  lemma StandingAccount(g: Graph, s: State, gone: set<Edge>, k: nat, c: Address, p: Address)
    requires Good(g) && Standing(g, s, gone, k)
    requires c in g.base.accounts && c != g.root && g.rank(c) < k
    requires Has(g.base.accounts[c].inviters, p) && (p, c) !in gone
    ensures
      c in s.accounts &&
      var r := s.accounts[c];
      r.address == c && r.enabled && r.invited == g.base.accounts[c].invited && Has(r.inviters, p) &&
      Chosen(r.inviters) == Some(r.activeInviter) && r.activeInviter.timestamp > 0 &&
      (r.content.Some? ==> r.activeInviter.timestamp <= r.timestamp)
  {
    var b, r := g.base.accounts[c], s.accounts[c];
    assert GoodAccount(g, c) && Stands(b, r, gone, g.root);
    LeftHas(b.inviters, gone, c, p);
    var o, i := NextInviter(b.inviters, {}, gone, c);
  }

  /** The children of an enabled account below `k`. */
  lemma Child(g: Graph, x: Address, j: nat) returns (c: Address)
    requires Good(g) && x in g.base.accounts && g.base.accounts[x].enabled && j < |g.base.accounts[x].invited|
    requires g.rank(g.top.0) > g.rank(x)
    ensures c == g.base.accounts[x].invited[j].account && g.base.accounts[x].invited[j].active
    ensures c in g.base.accounts && c != g.root && g.rank(c) < g.rank(x) && (x, c) != g.top
    ensures Has(g.base.accounts[c].inviters, x)
  {
    assert GoodAccount(g, x);
    var a := g.base.accounts[x];
    c := a.invited[j].account;
    assert Sound(g, a);
    assert GoodAccount(g, c);
    assert Invites(a, c);
    assert Mirrored(g.base, g.base.accounts[c], x);
  }

  /** CheckAllInvited finds nothing to do while every invite still stands. */
  lemma {:induction false} CheckNothing(g: Graph, s: State, gone: set<Edge>, x: Address, a: Account, j: nat, fuel: nat)
    requires Good(g) && x in g.base.accounts && g.base.accounts[x].enabled && g.rank(g.top.0) > g.rank(x)
    requires Standing(g, s, gone, g.rank(x)) && fuel >= g.rank(x)
    requires j <= |g.base.accounts[x].invited|
    requires NoneFrom(gone, x)
    ensures CheckAll(s, a, g.base.accounts[x].invited[j..], g.root, fuel) == Done(s)
    decreases |g.base.accounts[x].invited| - j
  {
    var invites := g.base.accounts[x].invited;
    if j < |invites| {
      var c := Child(g, x, j);
      StandingAccount(g, s, gone, g.rank(x), c, x);
      assert Fetch(s, c, false) == Some(s.accounts[c]);
      NoChange(s, c, g.root, fuel);
      assert invites[j..][0] == invites[j] && invites[j..][1..] == invites[j + 1..];
      CheckNothing(g, s, gone, x, a, j + 1, fuel);
    }
  }

  /** Checking all invites of `a` changes nothing. */
  ghost predicate Quiet(s: State, a: Account, root: Address, fuel: nat) {
    CheckAll(s, a, a.invited, root, fuel) == Done(s)
  }

  lemma FinishQuietly(s: State, a: Account, changed: bool, root: Address, fuel: nat)
    requires Quiet(s, a, root, fuel) && a.activeInviter.timestamp > 0
    ensures Finish(s, a, changed, root, fuel) == Done(s.(accounts := s.accounts[a.address := a]))
  {
    hide CheckAll;
  }

  lemma CheckNothingAtAll(g: Graph, s: State, gone: set<Edge>, x: Address, a: Account, fuel: nat)
    requires Good(g) && x in g.base.accounts && g.base.accounts[x].enabled && g.rank(g.top.0) > g.rank(x)
    requires Standing(g, s, gone, g.rank(x)) && fuel >= g.rank(x)
    requires NoneFrom(gone, x)
    requires a.invited == g.base.accounts[x].invited
    ensures Quiet(s, a, g.root, fuel)
  {
    hide CheckAll;
    CheckNothing(g, s, gone, x, a, 0, fuel);
    assert g.base.accounts[x].invited[0..] == a.invited;
  }

  /** The standing of an account before it loses the inviter `p`. */
  ghost predicate Before(g: Graph, s: State, gone: set<Edge>, k: nat, p: Address, x: Address) {
    Good(g) && Standing(g, s, gone, k) && Tight(g, gone, k) &&
    x in g.base.accounts && x != g.root && g.rank(x) < k && g.rank(x) < g.rank(g.top.0) &&
    Has(s.accounts[x].inviters, p) && ((p, x) == g.top || g.rank(p) >= k)
  }

  /** ... and what the removal leads to. */
  ghost predicate After(g: Graph, s: State, o: Outcome, gone: set<Edge>, gone': set<Edge>, k: nat, p: Address,
                        x: Address) {
    o.Done? && Standing(g, o.s, gone', k) && Tight(g, gone', k) &&
    Spread(gone, gone', p, x, g.rank) && OnlyBelow(s, o.s, g.rank, g.rank(x) + 1)
  }

  /** What is known about an account that is about to lose an inviter. */
  lemma BeforeRemoval(g: Graph, s: State, gone: set<Edge>, k: nat, p: Address, x: Address)
    requires Before(g, s, gone, k, p, x)
    ensures x in s.accounts
    ensures
      var b, r := g.base.accounts[x], s.accounts[x];
      Uninvited(r, p).inviters == Left(b.inviters, gone + {(p, x)}, x) && r.inviters == Left(b.inviters, gone, x) &&
      r.inviters != [] && r.enabled && b.enabled && r.address == x && r.invited == b.invited &&
      Chosen(r.inviters) == Some(r.activeInviter) && SameContent(r, Trimmed(b, r.activeInviter)) &&
      DistinctTimes(b.inviters) && InStepAt(s, x) && b.address == x && b.inviters != [] &&
      forall i, j :: 0 <= i < j < |b.inviters| ==> b.inviters[i].account != b.inviters[j].account
    ensures NoneFrom(gone + {(p, x)}, x)
  {
    var b, r := g.base.accounts[x], s.accounts[x];
    assert GoodAccount(g, x) && Stands(b, r, gone, g.root);
    LeftMore(b.inviters, gone, p, x);
    forall v ensures (x, v) !in gone + {(p, x)} {
      assert (x, v) in gone ==> LostAll(g, gone, x);
    }
  }

  /** What is left of an enabled account under a new oldest inviter, and the state once its content is dropped. */
  function Reheld(a: Account, i: Inviter): Account {
    Trimmed(a, i).(activeInviter := i)
  }

  function Dropping(s: State, a: Account, i: Inviter): State {
    if a.content.Some? && i.timestamp > a.timestamp then Withdrawn(s, a) else s
  }

  /** RecurseUpdateStatus of an enabled account that has an inviter, when its invites need no change. */
  lemma UpdateEnabled(s: State, a: Account, i: Inviter, root: Address, fuel: nat)
    requires a.address != root && a.enabled && a.inviters != [] && Chosen(a.inviters) == Some(i) && fuel > 0 &&
             i.timestamp > 0
    requires SameInviter(i, a.activeInviter) ==> i == a.activeInviter
    requires a.content.Some? ==> Get(s.merkle, a.address) == Some(a.timestamp)
    requires Quiet(Dropping(s, a, i), Reheld(a, i), root, fuel - 1)
    ensures Update(s, a, root, fuel) == Done(Dropping(s, a, i).(accounts := s.accounts[a.address := Reheld(a, i)]))
  {
    hide CheckAll, Chosen;
    assert Releveled(s, a, i) == s by {
      if a.content.Some? { assert (s.merkle - {a.address})[a.address := a.timestamp] == s.merkle; }
    }
    assert On(a, i) == a.(activeInviter := i);
    assert Withdrawn(s, On(a, i)) == Withdrawn(s, a);
    assert Update(s, a, root, fuel) == Enable(s, a, i, root, fuel - 1);
    assert Enable(s, a, i, root, fuel - 1) ==
      Finish(Dropping(s, a, i), Reheld(a, i), !SameInviter(i, a.activeInviter), root, fuel - 1);
  }

  /** An account that has another inviter stays enabled under the oldest one, and nobody else changes. */
  lemma KeepOne(g: Graph, s: State, gone: set<Edge>, p: Address, x: Address, k: nat, fuel: nat)
    requires Before(g, s, gone, k, p, x) && fuel > g.rank(x)
    requires Left(g.base.accounts[x].inviters, gone + {(p, x)}, x) != []
    ensures After(g, s, Update(s, Uninvited(s.accounts[x], p), g.root, fuel), gone, gone + {(p, x)}, k, p, x)
  {
    hide *;
    var a, i := KeptAccount(g, s, gone, p, x, k);
    var s2, a2 := Dropping(s, a, i), Reheld(a, i);
    DroppingTouches(s, a, i);
    Lower(g, s, s2, gone, k, p, x);
    CheckNothingAtAll(g, s2, gone + {(p, x)}, x, a2, fuel - 1);
    UpdateEnabled(s, a, i, g.root, fuel);
    KeptStands(g, s, s2, s2.(accounts := s2.accounts[x := a2]), gone, k, p, x, i, a2);
  }

  /** The account without the inviter `p`, and the inviter it will be under. */
  lemma KeptAccount(g: Graph, s: State, gone: set<Edge>, p: Address, x: Address, k: nat)
    returns (a: Account, i: Inviter)
    requires Before(g, s, gone, k, p, x)
    requires Left(g.base.accounts[x].inviters, gone + {(p, x)}, x) != []
    ensures Good(g) && Standing(g, s, gone, k) && g.rank(x) < k && g.rank(x) < g.rank(g.top.0)
    ensures x in g.base.accounts && g.base.accounts[x].enabled && x != g.root && x in s.accounts
    ensures a == Uninvited(s.accounts[x], p) && a.address == x && a.enabled && s.accounts[x].enabled && InStepAt(s, x)
    ensures a.inviters != [] && Chosen(a.inviters) == Some(i) && i.timestamp > 0
    ensures SameInviter(i, a.activeInviter) ==> i == a.activeInviter
    ensures SameContent(a, s.accounts[x]) && (a.content.Some? ==> Get(s.merkle, x) == Some(a.timestamp))
    ensures Stands(g.base.accounts[x], Reheld(a, i), gone + {(p, x)}, g.root)
    ensures a.invited == g.base.accounts[x].invited == Reheld(a, i).invited && Reheld(a, i).address == x
    ensures Dropping(s, a, i).accounts == s.accounts
    ensures NoneFrom(gone + {(p, x)}, x)
  {
    hide Good, Standing, Tight, Left, Chosen, WithoutInviter, Has, Sound, LogShows, DistinctTimes, NoneFrom, Mirrored;
    BeforeRemoval(g, s, gone, k, p, x);
    var b, o := g.base.accounts[x], NO_INVITER;
    a := Uninvited(s.accounts[x], p);
    o, i := NextInviter(b.inviters, gone, gone + {(p, x)}, x);
    assert SameContent(Reheld(a, i), Trimmed(b, i));
  }

  /** Dropping content concerns one account only. */
  lemma DroppingTouches(s: State, a: Account, i: Inviter)
    requires a.address in s.accounts && InStepAt(s, a.address) && s.accounts[a.address].enabled && a.enabled
    requires SameContent(a, s.accounts[a.address])
    ensures OnlyAt(s, Dropping(s, a, i), a.address)
    ensures InStepAt(Dropping(s, a, i).(accounts := s.accounts[a.address := Reheld(a, i)]), a.address)
  {
    var s2 := Dropping(s, a, i);
    LogAppend(s.history, a.address, true, a.address);
    forall c | c != a.address ensures Untouched(s, s2, c) { LogAppend(s.history, a.address, true, c); }
  }

  lemma SavedAt(s: State, s2: State, s': State, x: Address)
    requires OnlyAt(s, s2, x) && x in s'.accounts && s' == s2.(accounts := s2.accounts[x := s'.accounts[x]])
    ensures OnlyAt(s, s', x) && forall c {:trigger Untouched(s, s', c)} :: c != x ==> Untouched(s, s', c)
  {
    hide LogShows;
    forall c {:trigger Untouched(s, s', c)} | c != x ensures Untouched(s, s', c) { assert Untouched(s, s2, c); }
  }

  /** The account that keeps an inviter stands, and so does everybody else. */
  lemma KeptStands(g: Graph, s: State, s2: State, s': State, gone: set<Edge>, k: nat, p: Address, x: Address,
                   i: Inviter, a2: Account)
    requires Before(g, s, gone, k, p, x)
    requires Left(g.base.accounts[x].inviters, gone + {(p, x)}, x) != []
    requires Stands(g.base.accounts[x], a2, gone + {(p, x)}, g.root)
    requires s' == s2.(accounts := s2.accounts[x := a2]) && s2.accounts == s.accounts && InStepAt(s', x)
    requires OnlyAt(s, s2, x)
    ensures After(g, s, Done(s'), gone, gone + {(p, x)}, k, p, x)
  {
    hide Good, Standing, Tight, Left, Chosen, WithoutInviter, Has, Sound, LogShows, DistinctTimes, Stands, InStepAt,
      OnlyAt, Untouched;
    var gone' := gone + {(p, x)};
    BeforeRemoval(g, s, gone, k, p, x);
    SavedAt(s, s2, s', x);
    Lower(g, s, s', gone, k, p, x);
    Regain(g, s, s', gone, gone', k, p, x);
    TightLower(g, gone, k, p, x);
    TightRaise(g, gone, gone', k, p, x);
  }

  // ---- The cascade ------------------------------------------------------------------------------------

  /** What the loop over the invites of the disabled account `x`, from the j-th on, adds to the removed edges. */
  ghost predicate SpreadFrom(g: Graph, gone: set<Edge>, gone': set<Edge>, x: Address, j: nat)
    requires x in g.base.accounts
  {
    gone <= gone' &&
    (forall i :: j <= i < |g.base.accounts[x].invited| ==> (x, g.base.accounts[x].invited[i].account) in gone') &&
    forall e :: e in gone' ==> e in gone || (g.rank(e.1) < g.rank(x) && (e.0 == x || g.rank(e.0) < g.rank(x)))
  }

  lemma SpreadStep(g: Graph, gone: set<Edge>, gone1: set<Edge>, gone': set<Edge>, x: Address, j: nat)
    requires x in g.base.accounts && j < |g.base.accounts[x].invited| &&
             g.rank(g.base.accounts[x].invited[j].account) < g.rank(x)
    requires Spread(gone, gone1, x, g.base.accounts[x].invited[j].account, g.rank) &&
             SpreadFrom(g, gone1, gone', x, j + 1)
    ensures SpreadFrom(g, gone, gone', x, j)
  {
  }

  lemma {:induction false} RemoveAll(g: Graph, s: State, gone: set<Edge>, x: Address, j: nat, fuel: nat)
    returns (gone': set<Edge>)
    requires Good(g) && x in g.base.accounts && g.base.accounts[x].enabled && g.rank(g.top.0) > g.rank(x)
    requires Standing(g, s, gone, g.rank(x)) && Tight(g, gone, g.rank(x))
    requires j <= |g.base.accounts[x].invited| && fuel >= g.rank(x)
    requires forall i :: j <= i < |g.base.accounts[x].invited| ==> (x, g.base.accounts[x].invited[i].account) !in gone
    ensures
      var o := RemoveFrom(s, x, g.base.accounts[x].invited[j..], g.root, fuel);
      o.Done? && Standing(g, o.s, gone', g.rank(x)) && Tight(g, gone', g.rank(x)) &&
      SpreadFrom(g, gone, gone', x, j) && OnlyBelow(s, o.s, g.rank, g.rank(x))
    decreases g.rank(x), 0, |g.base.accounts[x].invited| - j
  {
    hide Good, Standing, Tight, Update, Has, Left, Chosen, LogShows, Untouched;
    var invites := g.base.accounts[x].invited;
    if j == |invites| {
      gone' := gone;
      StillBelow(s, g.rank, g.rank(x));
    } else {
      var c := Child(g, x, j);
      StandingAccount(g, s, gone, g.rank(x), c, x);
      assert Fetch(s, c, false) == Some(s.accounts[c]);
      var gone1 := RemoveOne(g, s, gone, x, c, g.rank(x), fuel);
      var o := Update(s, Uninvited(s.accounts[c], x), g.root, fuel);
      assert invites[j..][0] == invites[j] && invites[j..][1..] == invites[j + 1..];
      NotYet(g, gone, gone1, x, j);
      gone' := RemoveAll(g, o.s, gone1, x, j + 1, fuel);
      SpreadStep(g, gone, gone1, gone', x, j);
      BelowBoth(s, o.s, RemoveFrom(o.s, x, invites[j + 1..], g.root, fuel).s, g.rank, g.rank(c) + 1, g.rank(x));
    }
  }

  lemma StillBelow(s: State, rank: Rank, r: nat)
    ensures OnlyBelow(s, s, rank, r)
  {
  }

  lemma BelowBoth(s: State, s1: State, s2: State, rank: Rank, q: nat, r: nat)
    requires OnlyBelow(s, s1, rank, q) && OnlyBelow(s1, s2, rank, r) && q <= r
    ensures OnlyBelow(s, s2, rank, r)
  {
    forall c {:trigger Untouched(s, s2, c)} | rank(c) >= r ensures Untouched(s, s2, c) {
      assert Untouched(s, s1, c) && Untouched(s1, s2, c);
    }
  }

  /** The invites still ahead of the loop have not been removed. */
  lemma NotYet(g: Graph, gone: set<Edge>, gone1: set<Edge>, x: Address, j: nat)
    requires Good(g) && x in g.base.accounts && g.base.accounts[x].enabled && j < |g.base.accounts[x].invited|
    requires forall i :: j <= i < |g.base.accounts[x].invited| ==> (x, g.base.accounts[x].invited[i].account) !in gone
    requires Spread(gone, gone1, x, g.base.accounts[x].invited[j].account, g.rank)
    ensures forall i :: j + 1 <= i < |g.base.accounts[x].invited| ==>
              (x, g.base.accounts[x].invited[i].account) !in gone1
  {
    assert GoodAccount(g, x) && Sound(g, g.base.accounts[x]);
  }

  /** Removing one inviter from an account below `k` carries the standing of the graph along. */
  lemma {:induction false} RemoveOne(g: Graph, s: State, gone: set<Edge>, p: Address, x: Address, k: nat, fuel: nat)
    returns (gone': set<Edge>)
    requires Before(g, s, gone, k, p, x) && fuel > g.rank(x)
    ensures After(g, s, Update(s, Uninvited(s.accounts[x], p), g.root, fuel), gone, gone', k, p, x)
    decreases g.rank(x), 1
  {
    gone' := gone + {(p, x)};
    hide Good, Standing, Tight, Update, Has, Left, Chosen, LogShows, Untouched, RemoveFrom, WithoutInviter, Disabling,
      After, InStepAt;
    if Left(g.base.accounts[x].inviters, gone', x) != [] {
      KeepOne(g, s, gone, p, x, k, fuel);
    } else {
      BeforeRemoval(g, s, gone, k, p, x);
      var a := Uninvited(s.accounts[x], p);
      var s1 := Disabling(s, a);
      DisablingTouches(s, a);
      Lower(g, s, s1, gone, k, p, x);
      TightLower(g, gone, k, p, x);
      var lost := RemoveAll(g, s1, gone', x, 0, fuel - 1);
      assert g.base.accounts[x].invited[0..] == a.invited;
      var o := RemoveFrom(s1, x, a.invited, g.root, fuel - 1);
      UpdateDisabled(s, a, g.root, fuel);
      DroppedStands(g, s, s1, o.s, gone, lost, k, p, x);
      gone' := lost;
    }
  }

  lemma DisablingTouches(s: State, a: Account)
    requires a.address in s.accounts && InStepAt(s, a.address) && s.accounts[a.address].enabled
    requires SameContent(a, s.accounts[a.address])
    ensures OnlyAt(s, Disabling(s, a), a.address)
    ensures a.address !in Disabling(s, a).merkle && !LogShows(Disabling(s, a).history, a.address)
    ensures Disabling(s, a).accounts == s.accounts
  {
    LogAppend(s.history, a.address, true, a.address);
    forall c | c != a.address ensures Untouched(s, Disabling(s, a), c) { LogAppend(s.history, a.address, true, c); }
  }

  lemma UpdateDisabled(s: State, a: Account, root: Address, fuel: nat)
    requires a.address != root && a.inviters == [] && fuel > 0
    requires RemoveFrom(Disabling(s, a), a.address, a.invited, root, fuel - 1).Done?
    ensures
      var s2 := RemoveFrom(Disabling(s, a), a.address, a.invited, root, fuel - 1).s;
      Update(s, a, root, fuel) == Done(s2.(accounts := s2.accounts[a.address := Off(a)]))
  {
    hide RemoveFrom;
  }

  /** The account that lost its last inviter is disabled, and its invites are gone. */
  lemma DroppedStands(g: Graph, s: State, s1: State, s2: State, gone: set<Edge>, lost: set<Edge>, k: nat, p: Address,
                      x: Address)
    requires Before(g, s, gone, k, p, x)
    requires Left(g.base.accounts[x].inviters, gone + {(p, x)}, x) == []
    requires s1.accounts == s.accounts && x !in s1.merkle && !LogShows(s1.history, x) && OnlyAt(s, s1, x)
    requires Standing(g, s2, lost, g.rank(x)) && Tight(g, lost, g.rank(x))
    requires SpreadFrom(g, gone + {(p, x)}, lost, x, 0) && OnlyBelow(s1, s2, g.rank, g.rank(x))
    ensures After(g, s, Done(s2.(accounts := s2.accounts[x := Off(Uninvited(s.accounts[x], p))])), gone, lost, k, p, x)
  {
    hide Good, Standing, Tight, Has, Left, Chosen, LogShows, WithoutInviter, Stands, InStepAt, LostAll, Untouched,
      OnlyAt, OnlyBelow;
    DroppedAccount(g, s, s1, s2, gone, lost, k, p, x);
    var s' := s2.(accounts := s2.accounts[x := Off(Uninvited(s.accounts[x], p))]);
    OnlyFrom(s, s1, s2, s', g.rank, x);
    Raised(g, s2, s', lost, x);
    Regain(g, s, s', gone, lost, k, p, x);
    InvitesGone(g.base, lost, x);
    TightRaise(g, gone, lost, k, p, x);
  }

  lemma OnlyFrom(s: State, s1: State, s2: State, s': State, rank: Rank, x: Address)
    requires OnlyAt(s, s1, x) && OnlyBelow(s1, s2, rank, rank(x))
    requires x in s'.accounts && s' == s2.(accounts := s2.accounts[x := s'.accounts[x]])
    ensures forall c {:trigger Untouched(s, s', c)} :: rank(c) >= rank(x) && c != x ==> Untouched(s, s', c)
    ensures Untouched(s1, s2, x)
  {
    hide LogShows;
    forall c {:trigger Untouched(s, s', c)} | rank(c) >= rank(x) && c != x ensures Untouched(s, s', c) {
      assert Untouched(s, s1, c) && Untouched(s1, s2, c);
    }
  }

  lemma InvitesGone(base: State, lost: set<Edge>, x: Address)
    requires x in base.accounts
    requires forall i :: 0 <= i < |base.accounts[x].invited| ==> (x, base.accounts[x].invited[i].account) in lost
    ensures forall v :: Invites(base.accounts[x], v) ==> (x, v) in lost
  {
  }

  lemma DroppedAccount(g: Graph, s: State, s1: State, s2: State, gone: set<Edge>, lost: set<Edge>, k: nat,
                       p: Address, x: Address)
    requires Before(g, s, gone, k, p, x)
    requires Left(g.base.accounts[x].inviters, gone + {(p, x)}, x) == []
    requires s1.accounts == s.accounts && x !in s1.merkle && !LogShows(s1.history, x)
    requires SpreadFrom(g, gone + {(p, x)}, lost, x, 0) && OnlyBelow(s1, s2, g.rank, g.rank(x))
    ensures x in s.accounts && Spread(gone, lost, p, x, g.rank) && LostAll(g, lost, x)
    ensures Stands(g.base.accounts[x], Off(Uninvited(s.accounts[x], p)), lost, g.root)
    ensures InStepAt(s2.(accounts := s2.accounts[x := Off(Uninvited(s.accounts[x], p))]), x)
  {
    hide Good, Standing, Tight, Has, Left, Chosen, LogShows, WithoutInviter, SpreadFrom;
    BeforeRemoval(g, s, gone, k, p, x);
    SpreadAgain(g, gone, lost, p, x);
    LeftSame(g.base.accounts[x].inviters, gone + {(p, x)}, lost, x);
    SingleKeepsContent(g, s, gone, k, p, x);
    assert Untouched(s1, s2, x);
  }

  lemma SpreadAgain(g: Graph, gone: set<Edge>, lost: set<Edge>, p: Address, x: Address)
    requires x in g.base.accounts && SpreadFrom(g, gone + {(p, x)}, lost, x, 0)
    ensures Spread(gone, lost, p, x, g.rank)
    ensures forall q {:trigger (q, x)} :: (q, x) in gone + {(p, x)} <==> (q, x) in lost
  {
  }

  /** The content of an account with a single inviter is as old as that invite. */
  lemma SingleKeepsContent(g: Graph, s: State, gone: set<Edge>, k: nat, p: Address, x: Address)
    requires Before(g, s, gone, k, p, x)
    ensures x in s.accounts && g.base.accounts[x].inviters != [] && g.base.accounts[x].address == x
    ensures SameContent(s.accounts[x], g.base.accounts[x]) ||
            (|g.base.accounts[x].inviters| > 1 && SameContent(s.accounts[x], WithoutContent(g.base.accounts[x])))
  {
    BeforeRemoval(g, s, gone, k, p, x);
    hide Has, LogShows, WithoutInviter, Chosen, Mirrored, Sound, Left;
    var b := g.base.accounts[x];
    assert GoodAccount(g, x);
    if |b.inviters| == 1 {
      LeftOfOne(b.inviters, gone, x);
      assert Chosen(b.inviters) == Some(b.activeInviter);
    }
    LeftIsPart(b.inviters, gone, x);
  }

  /** Accounts below `x` do not notice that `x` is saved. */
  lemma Raised(g: Graph, s2: State, s': State, lost: set<Edge>, x: Address)
    requires Standing(g, s2, lost, g.rank(x)) && x in g.base.accounts
    requires x in s'.accounts && s' == s2.(accounts := s2.accounts[x := s'.accounts[x]])
    ensures Standing(g, s', lost, g.rank(x))
  {
    forall c | c !in g.base.accounts || g.rank(c) < g.rank(x) ensures InStepAt(s', c) {
      assert InStepAt(s2, c);
    }
  }

  // ---- The theorem ------------------------------------------------------------------------------------

  /** The inviters of `c` outside `disabled`, and without the removed edge `top`. */
  function Remaining(inviters: seq<Inviter>, disabled: set<Address>, top: Edge, c: Address): seq<Inviter> {
    if inviters == [] then []
    else
      (if (inviters[0].account, c) == top || inviters[0].account in disabled then [] else [inviters[0]])
      + Remaining(inviters[1..], disabled, top, c)
  }

  ghost predicate Stranded(b: Account, disabled: set<Address>, top: Edge) {
    b.inviters != [] && Remaining(b.inviters, disabled, top, b.address) == []
  }

  /** Whoever has lost every inviter, to the removal or to `disabled`, is in `disabled`. */
  ghost predicate Closed(g: Graph, disabled: set<Address>) {
    forall u :: u in g.base.accounts && u != g.root && Stranded(g.base.accounts[u], disabled, g.top) ==> u in disabled
  }

  /** What the record `b` becomes when the accounts in `disabled` are disabled. */
  ghost predicate Settled(b: Account, r: Account, disabled: set<Address>, top: Edge, root: Address) {
    r.address == b.address && r.invited == b.invited &&
    if b.address == root || b.inviters == [] then r == b
    else
      r.inviters == Remaining(b.inviters, disabled, top, b.address) &&
      if r.inviters == [] then
        !r.enabled && r.activeInviter == NO_INVITER &&
        (SameContent(r, b) || (|b.inviters| > 1 && SameContent(r, WithoutContent(b))))
      else
        r.enabled && StrictlyOldest(r.inviters, r.activeInviter) && SameContent(r, Trimmed(b, r.activeInviter))
  }

  function NewlyDisabled(base: State, s: State): set<Address>
    requires s.accounts.Keys == base.accounts.Keys
  {
    set c | c in base.accounts && base.accounts[c].enabled && !s.accounts[c].enabled
  }

  lemma {:induction false} RemainingIsLeft(inviters: seq<Inviter>, gone: set<Edge>, disabled: set<Address>,
                                           top: Edge, c: Address)
    requires forall j :: 0 <= j < |inviters| ==>
               ((inviters[j].account, c) in gone <==>
                 (inviters[j].account, c) == top || inviters[j].account in disabled)
    ensures Left(inviters, gone, c) == Remaining(inviters, disabled, top, c)
  {
    if inviters != [] {
      assert inviters[0].account == inviters[0].account;
      RemainingIsLeft(inviters[1..], gone, disabled, top, c);
    }
  }

  /** An inviter is above the account it invites. */
  lemma InviterAbove(g: Graph, u: Address, j: nat) returns (q: Address)
    requires Good(g) && u in g.base.accounts && u != g.root && j < |g.base.accounts[u].inviters|
    ensures q == g.base.accounts[u].inviters[j].account
    ensures (q, u) == g.top ||
            (q in g.base.accounts && g.rank(q) > g.rank(u) && g.base.accounts[q].enabled &&
             Invites(g.base.accounts[q], u))
  {
    q := g.base.accounts[u].inviters[j].account;
    assert GoodAccount(g, u);
    if (q, u) != g.top {
      assert Mirrored(g.base, g.base.accounts[u], q) && Has(g.base.accounts[u].inviters, q);
      assert GoodAccount(g, q) && Sound(g, g.base.accounts[q]);
    }
  }

  /** The removed edges of the finished cascade are the first one and the invites of the disabled accounts. */
  lemma GoneIsDisabled(g: Graph, gone: set<Edge>, disabled: set<Address>, u: Address)
    requires Good(g) && Tight(g, gone, g.height) && g.top in gone
    requires forall e :: e in gone && e != g.top ==> g.rank(e.0) < g.height
    requires forall c :: c in disabled <==> LostAll(g, gone, c)
    requires u in g.base.accounts && u != g.root
    ensures Left(g.base.accounts[u].inviters, gone, u) == Remaining(g.base.accounts[u].inviters, disabled, g.top, u)
  {
    var inviters := g.base.accounts[u].inviters;
    forall j | 0 <= j < |inviters|
      ensures (inviters[j].account, u) in gone <==> (inviters[j].account, u) == g.top || inviters[j].account in disabled
    {
      var q := InviterAbove(g, u, j);
    }
    RemainingIsLeft(inviters, gone, disabled, g.top, u);
  }

  /** Every closed set contains the accounts that have lost all inviters. */
  lemma {:induction false} LeastAmongClosed(g: Graph, gone: set<Edge>, closed: set<Address>, u: Address)
    requires Good(g) && Tight(g, gone, g.height)
    requires forall e :: e in gone && e != g.top ==> g.rank(e.0) < g.height
    requires Closed(g, closed) && LostAll(g, gone, u)
    ensures u in closed
    decreases g.height - g.rank(u)
  {
    var inviters := g.base.accounts[u].inviters;
    LeftEmpty(inviters, gone, u);
    forall j | 0 <= j < |inviters| ensures (inviters[j].account, u) == g.top || inviters[j].account in closed {
      var q := InviterAbove(g, u, j);
      if (q, u) != g.top { LeastAmongClosed(g, gone, closed, q); }
    }
    RemainingEmpty(inviters, closed, g.top, u);
    assert GoodAccount(g, u) && Stranded(g.base.accounts[u], closed, g.top);
  }

  lemma {:induction false} RemainingEmpty(inviters: seq<Inviter>, disabled: set<Address>, top: Edge, c: Address)
    requires forall j :: 0 <= j < |inviters| ==> (inviters[j].account, c) == top || inviters[j].account in disabled
    ensures Remaining(inviters, disabled, top, c) == []
  {
    if inviters != [] {
      assert inviters[0].account == inviters[0].account;
      RemainingEmpty(inviters[1..], disabled, top, c);
    }
  }

  /** The cascade starts from a good state. */
  lemma NothingGoneYet(g: Graph)
    requires Good(g)
    ensures Standing(g, g.base, {}, g.height) && Tight(g, {}, g.height)
    ensures forall c :: c in g.base.accounts ==> g.rank(c) < g.height
  {
    forall c | c in g.base.accounts && g.rank(c) < g.height
      ensures Stands(g.base.accounts[c], g.base.accounts[c], {}, g.root)
    {
      assert GoodAccount(g, c);
      LeftOfNothing(g.base.accounts[c].inviters, c);
    }
    forall u | LostAll(g, {}, u) ensures false { LeftOfNothing(g.base.accounts[u].inviters, u); }
  }

  /** The state after the cascade, account by account. */
  ghost predicate Disabled(g: Graph, s: State, disabled: set<Address>) {
    s.accounts.Keys == g.base.accounts.Keys && (forall c :: InStepAt(s, c)) &&
    forall c :: c in g.base.accounts ==> Settled(g.base.accounts[c], s.accounts[c], disabled, g.top, g.root)
  }

  /** Where the finished cascade leaves every account, and who is disabled. */
  lemma AllSettled(g: Graph, s: State, gone: set<Edge>) returns (disabled: set<Address>)
    requires Good(g) && Tight(g, gone, g.height) && g.top in gone
    requires forall e :: e in gone && e != g.top ==> g.rank(e.0) < g.height
    requires Standing(g, s, gone, g.height)
    ensures s.accounts.Keys == g.base.accounts.Keys && disabled == NewlyDisabled(g.base, s)
    ensures forall c :: c in disabled <==> LostAll(g, gone, c)
    ensures Disabled(g, s, disabled) && Closed(g, disabled)
  {
    disabled := NewlyDisabled(g.base, s);
    forall c ensures c in disabled <==> LostAll(g, gone, c) {
      if c in g.base.accounts {
        assert GoodAccount(g, c) && Stands(g.base.accounts[c], s.accounts[c], gone, g.root);
      }
    }
    forall c | c in g.base.accounts ensures Settled(g.base.accounts[c], s.accounts[c], disabled, g.top, g.root) {
      var b, r := g.base.accounts[c], s.accounts[c];
      assert GoodAccount(g, c) && Stands(b, r, gone, g.root);
      if c != g.root { GoneIsDisabled(g, gone, disabled, c); }
      if c != g.root && b.inviters != [] && r.inviters != [] { ChosenIsOldest(r.inviters, r.activeInviter); }
    }
    forall u | u in g.base.accounts && u != g.root && Stranded(g.base.accounts[u], disabled, g.top)
      ensures u in disabled
    {
      assert GoodAccount(g, u);
      GoneIsDisabled(g, gone, disabled, u);
    }
  }

  /** RecurseUpdateStatus after the removal of one inviter never fails. It disables the least set of accounts
      that is closed under losing all inviters; every other account keeps its other inviters with the oldest
      of them active, and merklehead and delta log agree with every account again. */
  lemma DisableIsExact(g: Graph, p: Address, x: Address, fuel: nat)
    requires Good(g) && g.top == (p, x)
    requires x in g.base.accounts && x != g.root && g.rank(x) < g.rank(p) && Has(g.base.accounts[x].inviters, p)
    requires fuel > g.rank(x)
    ensures
      var o := Update(g.base, Uninvited(g.base.accounts[x], p), g.root, fuel);
      o.Done? && o.s.accounts.Keys == g.base.accounts.Keys &&
      var disabled := NewlyDisabled(g.base, o.s);
      Disabled(g, o.s, disabled) && Closed(g, disabled) &&
      forall closed :: Closed(g, closed) ==> disabled <= closed
  {
    hide Good, Standing, Tight, Update, Has, Left, Chosen, LogShows, Closed, Disabled, LostAll;
    NothingGoneYet(g);
    var gone := RemoveOne(g, g.base, {}, p, x, g.height, fuel);
    var o := Update(g.base, Uninvited(g.base.accounts[x], p), g.root, fuel);
    var disabled := AllSettled(g, o.s, gone);
    forall closed | Closed(g, closed) ensures disabled <= closed {
      forall u | u in disabled ensures u in closed {
        LeastAmongClosed(g, gone, closed, u);
      }
    }
  }
}
