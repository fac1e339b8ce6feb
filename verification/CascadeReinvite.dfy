/** Disabling and inviting again is a round trip: in an invite forest where content is newer than the invite
    it came under and only accounts with content invite others, re-adding the removed inviter restores
    exactly the accounts that the removal disabled. */
module CascadeReinvite {
  import opened Basics
  import opened DeltaLogs
  import opened Accounts
  import opened Cascade
  import opened CascadeDisable

  // ---- The forest -------------------------------------------------------------------------------------

  /** An enabled account with one inviter, content newer than the invite, and invites newer than its own
      that the invited accounts know. */
  ghost predicate TreeAccount(base: State, c: Address) {
    c in base.accounts &&
    var b := base.accounts[c];
    |b.inviters| == 1 && (b.content.Some? ==> b.timestamp > b.activeInviter.timestamp) &&
    (b.invited != [] ==> b.content.Some?) &&
    forall j :: 0 <= j < |b.invited| ==> Counts(b, b.invited[j]) && Knows(base, c, b.invited[j])
  }

  ghost predicate Knows(base: State, p: Address, i: Invite) {
    i.account in base.accounts && |base.accounts[i.account].inviters| == 1 &&
    var known := base.accounts[i.account].inviters[0];
    known.account == p && known.timestamp == i.timestamp && known.lvlGap == i.lvlGap
  }

  ghost predicate Forest(base: State, root: Address) {
    forall c :: c in base.accounts && c != root && base.accounts[c].enabled ==> TreeAccount(base, c)
  }

  /** A graph that is a forest. */
  ghost predicate Grown(g: Graph) {
    Good(g) && Forest(g.base, g.root)
  }

  /** An enabled account below the removed invite. */
  ghost predicate Inner(g: Graph, x: Address) {
    Grown(g) && x in g.base.accounts && x != g.root && g.base.accounts[x].enabled && g.rank(g.top.0) > g.rank(x)
  }

  /** The one inviter of an account. */
  ghost predicate Parent(g: Graph, u: Address, q: Address) {
    u in g.base.accounts && u != g.root &&
    |g.base.accounts[u].inviters| == 1 && g.base.accounts[u].inviters[0].account == q &&
    g.rank(u) < g.rank(q) && g.rank(u) < g.height
  }

  /** `u` is `x` or invited, directly or not, by `x`. */
  ghost predicate Under(g: Graph, x: Address, u: Address)
    decreases g.height - g.rank(u)
  {
    u == x ||
    (u in g.base.accounts && |g.base.accounts[u].inviters| == 1 &&
     var q := g.base.accounts[u].inviters[0].account;
     Parent(g, u, q) && Under(g, x, q))
  }

  /** `u` is under one of the accounts that `x` invites, from the j-th on. */
  ghost predicate UnderAny(g: Graph, x: Address, j: nat, u: Address) {
    x in g.base.accounts &&
    exists i :: j <= i < |g.base.accounts[x].invited| && Under(g, g.base.accounts[x].invited[i].account, u)
  }

  // ---- Subtrees ---------------------------------------------------------------------------------------

  lemma {:induction false} UnderIsBelow(g: Graph, x: Address, u: Address)
    requires Under(g, x, u)
    ensures g.rank(u) <= g.rank(x)
    decreases g.height - g.rank(u)
  {
    if u != x { UnderIsBelow(g, x, g.base.accounts[u].inviters[0].account); }
  }

  /** Two different children of an account have no common descendant. */
  lemma {:induction false} SubtreesAreDisjoint(g: Graph, p: Address, c: Address, d: Address, u: Address)
    requires Parent(g, c, p) && Parent(g, d, p) && c != d && Under(g, c, u)
    ensures !Under(g, d, u)
    decreases g.height - g.rank(u)
  {
    if Under(g, d, u) {
      if u == c {
        UnderIsBelow(g, d, p);
      } else if u == d {
        UnderIsBelow(g, c, p);
      } else {
        SubtreesAreDisjoint(g, p, c, d, g.base.accounts[u].inviters[0].account);
      }
    }
  }

  /** The j-th account that `x` invites. */
  lemma ChildOf(g: Graph, x: Address, j: nat) returns (c: Address)
    requires Inner(g, x) && j < |g.base.accounts[x].invited|
    ensures c == g.base.accounts[x].invited[j].account && c in g.base.accounts
    ensures Parent(g, c, x) && Inner(g, c) && g.base.accounts[x].invited[j].active
    ensures Counts(g.base.accounts[x], g.base.accounts[x].invited[j]) && Knows(g.base, x, g.base.accounts[x].invited[j])
    ensures forall i :: 0 <= i < |g.base.accounts[x].invited| && i != j ==> g.base.accounts[x].invited[i].account != c
  {
    c := Child(g, x, j);
    assert TreeAccount(g.base, x);
    assert GoodAccount(g, x) && GoodAccount(g, c);
    assert Sound(g, g.base.accounts[x]);
  }

  lemma ParentInvites(g: Graph, u: Address, x: Address) returns (j: nat)
    requires Inner(g, x) && Parent(g, u, x)
    ensures j < |g.base.accounts[x].invited| && g.base.accounts[x].invited[j].account == u
  {
    var c := g.base.accounts[u];
    assert GoodAccount(g, u) && (x, u) != g.top;
    assert Mirrored(g.base, c, x) && Has(c.inviters, x);
    j :| 0 <= j < |g.base.accounts[x].invited| && g.base.accounts[x].invited[j].account == u;
  }

  lemma {:induction false} UnderChild(g: Graph, x: Address, c: Address, u: Address)
    requires Parent(g, c, x) && Under(g, c, u)
    ensures Under(g, x, u)
    decreases g.height - g.rank(u)
  {
    if u != c { UnderChild(g, x, c, g.base.accounts[u].inviters[0].account); }
  }

  lemma {:induction false} UnderSomeChild(g: Graph, x: Address, u: Address) returns (j: nat)
    requires Inner(g, x) && Under(g, x, u) && u != x
    ensures j < |g.base.accounts[x].invited| && Under(g, g.base.accounts[x].invited[j].account, u)
    decreases g.height - g.rank(u)
  {
    var q := g.base.accounts[u].inviters[0].account;
    if q == x {
      j := ParentInvites(g, u, x);
    } else {
      j := UnderSomeChild(g, x, q);
    }
  }

  /** A subtree is its root and the subtrees of the children. */
  lemma UnderSplits(g: Graph, x: Address, u: Address)
    requires Inner(g, x)
    ensures Under(g, x, u) <==> u == x || UnderAny(g, x, 0, u)
  {
    if UnderAny(g, x, 0, u) {
      var i :| 0 <= i < |g.base.accounts[x].invited| && Under(g, g.base.accounts[x].invited[i].account, u);
      var c := ChildOf(g, x, i);
      UnderChild(g, x, c, u);
    }
    if Under(g, x, u) && u != x { var j := UnderSomeChild(g, x, u); }
  }

  // ---- Restored accounts ------------------------------------------------------------------------------

  /** The record of an account of the forest after its only inviter was removed. */
  function Offline(b: Account): Account {
    Off(b.(inviters := []))
  }

  /** The same account, active inviter and content; only what the inviter entry notes about the inviter's
      own level may differ. */
  ghost predicate Restored(b: Account, r: Account) {
    r == b ||
    (r.address == b.address && r.invited == b.invited && r.enabled == b.enabled && SameContent(r, b) &&
     SameInviter(r.activeInviter, b.activeInviter) && |b.inviters| == 1 && r.inviters == [r.activeInviter])
  }

  /** The accounts in `off` are offline, all others are as they were. */
  ghost predicate Partly(g: Graph, s: State, off: set<Address>) {
    s.accounts.Keys == g.base.accounts.Keys && off <= g.base.accounts.Keys && (forall c :: InStepAt(s, c)) &&
    (forall c :: c in off ==> s.accounts[c] == Offline(g.base.accounts[c])) &&
    (forall c :: c in g.base.accounts && c !in off ==> Restored(g.base.accounts[c], s.accounts[c]))
  }

  /** Nothing changes in the records outside `part`. */
  ghost predicate OnlyIn(s: State, s': State, part: set<Address>) {
    forall c {:trigger Get(s'.accounts, c)} :: c !in part ==> Get(s'.accounts, c) == Get(s.accounts, c)
  }

  /** `part` is the part of `off` under `x`. */
  ghost predicate Subtree(g: Graph, x: Address, off: set<Address>, part: set<Address>) {
    part <= off && forall u :: Under(g, x, u) <==> u in part
  }

  ghost predicate Subtrees(g: Graph, x: Address, j: nat, off: set<Address>, part: set<Address>) {
    part <= off && forall u :: UnderAny(g, x, j, u) <==> u in part
  }

  /** An inviter entry that differs from the one `x` had in bookkeeping at most. */
  ghost predicate SameEntry(g: Graph, x: Address, e: Inviter) {
    x in g.base.accounts && |g.base.accounts[x].inviters| == 1 && SameInviter(e, g.base.accounts[x].inviters[0])
  }

  /** What inviting the offline account again makes of its copy, and of the account. */
  function Reinvited(b: Account, e: Inviter): Account {
    Offline(b).(inviters := [e])
  }

  function Online(b: Account, e: Inviter): Account {
    b.(inviters := [e], activeInviter := e, enabled := true)
  }

  lemma InnerAccount(g: Graph, x: Address)
    requires Inner(g, x)
    ensures
      var b := g.base.accounts[x];
      b.address == x && b.enabled && |b.inviters| == 1 &&
      b.inviters[0] == b.activeInviter && b.activeInviter.timestamp > 0 &&
      (b.content.Some? ==> b.timestamp > b.activeInviter.timestamp) && (b.invited != [] ==> b.content.Some?)
  {
    assert GoodAccount(g, x) && TreeAccount(g.base, x);
  }

  lemma OnlineRestores(g: Graph, x: Address, e: Inviter)
    requires Inner(g, x) && SameEntry(g, x, e)
    ensures Restored(g.base.accounts[x], Online(g.base.accounts[x], e))
    ensures Refreshed(Online(g.base.accounts[x], e), g.base.accounts[x].invited) == g.base.accounts[x].invited
  {
    InnerAccount(g, x);
    var b, a1 := g.base.accounts[x], Online(g.base.accounts[x], e);
    forall j | 0 <= j < |b.invited| ensures Refreshed(a1, b.invited)[j] == b.invited[j] { var c := ChildOf(g, x, j); }
    assert Refreshed(a1, b.invited) == b.invited;
  }

  /** Who is under a child of `x` is under no other child. */
  lemma OneChildLess(g: Graph, x: Address, j: nat, off: set<Address>, part: set<Address>)
    returns (own: set<Address>, rest: set<Address>)
    requires Inner(g, x) && j < |g.base.accounts[x].invited| && Subtrees(g, x, j, off, part)
    ensures Subtree(g, g.base.accounts[x].invited[j].account, off, own) && own + rest == part
    ensures own !! rest && Subtrees(g, x, j + 1, off - own, rest)
  {
    var c := ChildOf(g, x, j);
    var invited := g.base.accounts[x].invited;
    own := set u | u in part && Under(g, c, u);
    rest := part - own;
    forall u ensures (Under(g, c, u) <==> u in own) && (UnderAny(g, x, j + 1, u) <==> u in rest) {
      if Under(g, c, u) { assert UnderAny(g, x, j, u); }
      if UnderAny(g, x, j + 1, u) {
        var i :| j + 1 <= i < |invited| && Under(g, invited[i].account, u);
        assert UnderAny(g, x, j, u);
        var d := ChildOf(g, x, i);
        SubtreesAreDisjoint(g, x, d, c, u);
      }
      if u in rest {
        var i :| j <= i < |invited| && Under(g, invited[i].account, u);
        assert i != j;
      }
    }
  }

  lemma NotifiedChild(g: Graph, x: Address, j: nat, s: State, a: Account, c: Address)
    requires Inner(g, x) && j < |g.base.accounts[x].invited| && c == g.base.accounts[x].invited[j].account
    requires c in s.accounts && s.accounts[c] == Offline(g.base.accounts[c])
    requires a.address == x && a.activeInviter.timestamp == g.base.accounts[x].activeInviter.timestamp
    ensures
      var i := g.base.accounts[x].invited[j];
      SameEntry(g, c, InviterFor(a, i)) && Counts(a, i) &&
      Invited(FetchOrNew(s, c), InviterFor(a, i)) == Reinvited(g.base.accounts[c], InviterFor(a, i))
  {
    var d := ChildOf(g, x, j);
    InnerAccount(g, c);
  }

  /** The copies that ReenableWithContent works on are as good as fresh: they are determined by the records
      before the removal. */
  ghost predicate Copies(g: Graph, x: Address, j: nat, copies: seq<Account>) {
    x in g.base.accounts && j <= |g.base.accounts[x].invited| && |copies| == |g.base.accounts[x].invited| - j &&
    forall i :: 0 <= i < |copies| ==> Copy(g, g.base.accounts[x].invited[j + i].account, copies[i])
  }

  ghost predicate Copy(g: Graph, c: Address, copy: Account) {
    c in g.base.accounts && exists e :: SameEntry(g, c, e) && copy == Reinvited(g.base.accounts[c], e)
  }

  lemma {:induction false} NotifiedAreCopies(g: Graph, x: Address, j: nat, s: State, a: Account)
    requires Inner(g, x) && j <= |g.base.accounts[x].invited|
    requires forall i :: j <= i < |g.base.accounts[x].invited| ==>
               g.base.accounts[x].invited[i].account in s.accounts &&
               s.accounts[g.base.accounts[x].invited[i].account] ==
                 Offline(g.base.accounts[g.base.accounts[x].invited[i].account])
    requires a.address == x && a.activeInviter.timestamp == g.base.accounts[x].activeInviter.timestamp
    ensures Copies(g, x, j, Notified(s, a, g.base.accounts[x].invited[j..]))
    decreases |g.base.accounts[x].invited| - j
  {
    var invited := g.base.accounts[x].invited;
    if j < |invited| {
      var c := ChildOf(g, x, j);
      NotifiedChild(g, x, j, s, a, c);
      NotifiedAreCopies(g, x, j + 1, s, a);
      assert invited[j..][0] == invited[j] && invited[j..][1..] == invited[j + 1..];
      var first, rest := Reinvited(g.base.accounts[c], InviterFor(a, invited[j])), Notified(s, a, invited[j + 1..]);
      assert Notified(s, a, invited[j..]) == [first] + rest;
      MoreCopies(g, x, j, first, rest);
    }
  }

  lemma MoreCopies(g: Graph, x: Address, j: nat, first: Account, rest: seq<Account>)
    requires x in g.base.accounts && j < |g.base.accounts[x].invited| && Copies(g, x, j + 1, rest)
    requires Copy(g, g.base.accounts[x].invited[j].account, first)
    ensures Copies(g, x, j, [first] + rest)
  {
    hide Copy;
    var invited := g.base.accounts[x].invited;
    forall i | 0 <= i < |[first] + rest| ensures Copy(g, invited[j + i].account, ([first] + rest)[i]) {
      if i > 0 { assert Copy(g, invited[j + 1 + (i - 1)].account, rest[i - 1]); }
    }
  }

  // ---- Re-enabling ------------------------------------------------------------------------------------

  /** RecurseUpdateStatus of an offline account that is invited again, once its own invites have been handled. */
  lemma UpdateReinvited(s: State, b: Account, e: Inviter, s2: State, root: Address, fuel: nat)
    requires b.address != root && b.timestamp > e.timestamp > 0 && b.content.Some? && fuel > 0
    requires Refreshed(Online(b, e), b.invited) == b.invited
    requires UpdateEach(s, Notified(s, Online(b, e), b.invited), root, fuel - 1) == Done(s2)
    requires Quiet(Entered(s2, Online(b, e)), Online(b, e), root, fuel - 1)
    ensures Update(s, Reinvited(b, e), root, fuel) ==
            Done(Entered(s2, Online(b, e)).(accounts := s2.accounts[b.address := Online(b, e)]))
  {
    hide UpdateEach, CheckAll, Notified, Refreshed;
    var a, a1 := Reinvited(b, e), Online(b, e);
    assert a.inviters == [e] && Chosen(a.inviters) == Some(e);
    assert On(a, e) == a1 && Releveled(s, a, e) == s;
    assert Update(s, a, root, fuel) == Enable(s, a, e, root, fuel - 1);
    assert a1.(invited := b.invited) == a1;
    assert Enable(s, a, e, root, fuel - 1) == Finish(Entered(s2, a1), a1, true, root, fuel - 1);
    FinishQuietly(Entered(s2, a1), a1, true, root, fuel - 1);
  }

  lemma UpdateReinvitedEmpty(s: State, b: Account, e: Inviter, root: Address, fuel: nat)
    requires b.address != root && e.timestamp > 0 && b.content.None? && b.invited == [] && fuel > 0
    ensures Update(s, Reinvited(b, e), root, fuel) == Done(s.(accounts := s.accounts[b.address := Online(b, e)]))
  {
    hide UpdateEach, Notified, Refreshed;
    var a, a1 := Reinvited(b, e), Online(b, e);
    assert a.inviters == [e] && Chosen(a.inviters) == Some(e);
    assert On(a, e) == a1 && Releveled(s, a, e) == s;
    assert Update(s, a, root, fuel) == Enable(s, a, e, root, fuel - 1) == Finish(s, a1, true, root, fuel - 1);
    assert CheckAll(s, a1, [], root, fuel - 1) == Done(s);
  }

  /** CheckAllInvited finds restored children in order. */
  lemma {:induction false} CheckRestored(g: Graph, x: Address, j: nat, s: State, a: Account, fuel: nat)
    requires Inner(g, x) && j <= |g.base.accounts[x].invited| && fuel > 0
    requires s.accounts.Keys == g.base.accounts.Keys
    requires forall i :: j <= i < |g.base.accounts[x].invited| ==>
               var c := g.base.accounts[x].invited[i].account;
               c in s.accounts && Restored(g.base.accounts[c], s.accounts[c])
    ensures CheckAll(s, a, g.base.accounts[x].invited[j..], g.root, fuel) == Done(s)
    decreases |g.base.accounts[x].invited| - j
  {
    var invited := g.base.accounts[x].invited;
    if j < |invited| {
      var c := ChildOf(g, x, j);
      InnerAccount(g, c);
      assert Restored(g.base.accounts[c], s.accounts[c]);
      NoChange(s, c, g.root, fuel);
      assert Fetch(s, c, false) == Some(s.accounts[c]);
      assert invited[j..][0] == invited[j] && invited[j..][1..] == invited[j + 1..];
      CheckRestored(g, x, j + 1, s, a, fuel);
    }
  }

  /** The account itself comes back last. */
  lemma OnlineAgain(g: Graph, x: Address, e: Inviter, s: State, s': State, off: set<Address>)
    requires Inner(g, x) && SameEntry(g, x, e) && Partly(g, s, off) && x in off
    requires
      var b, a1 := g.base.accounts[x], Online(g.base.accounts[x], e);
      s' == (if b.content.Some? then Entered(s, a1) else s).(accounts := s.accounts[x := a1])
    ensures Partly(g, s', off - {x}) && OnlyIn(s, s', {x})
  {
    InnerAccount(g, x);
    OnlineRestores(g, x, e);
    LogAppend(s.history, x, false, x);
    forall c ensures InStepAt(s', c) {
      LogAppend(s.history, x, false, c);
      assert InStepAt(s, c);
    }
  }

  lemma SubtreeBelow(g: Graph, x: Address, off: set<Address>, part: set<Address>)
    requires Inner(g, x) && Subtree(g, x, off, part)
    ensures x in part && Subtrees(g, x, 0, off, part - {x})
    ensures forall i :: 0 <= i < |g.base.accounts[x].invited| ==> g.base.accounts[x].invited[i].account in part - {x}
  {
    assert Under(g, x, x);
    forall u ensures UnderAny(g, x, 0, u) <==> u in part - {x} {
      UnderSplits(g, x, u);
      if UnderAny(g, x, 0, x) {
        var i :| 0 <= i < |g.base.accounts[x].invited| && Under(g, g.base.accounts[x].invited[i].account, x);
        var c := ChildOf(g, x, i);
        UnderIsBelow(g, c, x);
      }
    }
    forall i | 0 <= i < |g.base.accounts[x].invited| ensures g.base.accounts[x].invited[i].account in part - {x} {
      assert Under(g, g.base.accounts[x].invited[i].account, g.base.accounts[x].invited[i].account);
      assert UnderAny(g, x, 0, g.base.accounts[x].invited[i].account);
    }
  }

  lemma OnlyInBoth(s: State, s1: State, s2: State, part: set<Address>, part': set<Address>)
    requires OnlyIn(s, s1, part) && OnlyIn(s1, s2, part')
    ensures OnlyIn(s, s2, part + part')
  {
  }

  lemma NoCopies(g: Graph, x: Address, s: State, copies: seq<Account>, off: set<Address>, part: set<Address>, fuel: nat)
    requires x in g.base.accounts && Copies(g, x, |g.base.accounts[x].invited|, copies) && Partly(g, s, off)
    requires Subtrees(g, x, |g.base.accounts[x].invited|, off, part)
    ensures UpdateEach(s, copies, g.root, fuel) == Done(s) && off - part == off && OnlyIn(s, s, part)
  {
    forall u ensures u !in part { assert !UnderAny(g, x, |g.base.accounts[x].invited|, u); }
  }

  lemma FirstCopy(g: Graph, x: Address, j: nat, s: State, copies: seq<Account>, fuel: nat)
    returns (c: Address, e: Inviter)
    requires Inner(g, x) && Copies(g, x, j, copies) && j < |g.base.accounts[x].invited|
    ensures c == g.base.accounts[x].invited[j].account && Inner(g, c) && g.rank(c) < g.rank(x)
    ensures SameEntry(g, c, e) && copies != [] && copies[0] == Reinvited(g.base.accounts[c], e)
    ensures Copies(g, x, j + 1, copies[1..])
    ensures
      var one := Update(s, copies[0], g.root, fuel);
      UpdateEach(s, copies, g.root, fuel) == if one.Done? then UpdateEach(one.s, copies[1..], g.root, fuel) else one
  {
    c := ChildOf(g, x, j);
    assert Copy(g, g.base.accounts[x].invited[j + 0].account, copies[0]);
    e :| SameEntry(g, c, e) && copies[0] == Reinvited(g.base.accounts[c], e);
    forall i | 0 <= i < |copies[1..]| ensures Copy(g, g.base.accounts[x].invited[j + 1 + i].account, copies[1..][i]) {
      assert Copy(g, g.base.accounts[x].invited[j + (i + 1)].account, copies[i + 1]);
    }
  }

  lemma {:induction false} ReenableEach(g: Graph, x: Address, j: nat, s: State, copies: seq<Account>,
                                        off: set<Address>, part: set<Address>, fuel: nat)
    requires x in g.base.accounts && Inner(g, x) && Copies(g, x, j, copies) && Partly(g, s, off) &&
             Subtrees(g, x, j, off, part) && fuel >= g.rank(x)
    ensures
      var o := UpdateEach(s, copies, g.root, fuel);
      o.Done? && Partly(g, o.s, off - part) && OnlyIn(s, o.s, part)
    decreases g.rank(x), 0, |copies|
  {
    hide *;
    if j == |g.base.accounts[x].invited| {
      NoCopies(g, x, s, copies, off, part, fuel);
    } else {
      CopiesLength(g, x, j, copies);
      var c, e := FirstCopy(g, x, j, s, copies, fuel);
      var own, rest := OneChildLess(g, x, j, off, part);
      ReenableOne(g, c, e, s, off, own, fuel);
      var s1 := Update(s, copies[0], g.root, fuel).s;
      ReenableEach(g, x, j + 1, s1, copies[1..], off - own, rest, fuel);
      OnlyInBoth(s, s1, UpdateEach(s1, copies[1..], g.root, fuel).s, own, rest);
      assert off - own - rest == off - part;
    }
  }

  lemma CopiesLength(g: Graph, x: Address, j: nat, copies: seq<Account>)
    requires Copies(g, x, j, copies)
    ensures x in g.base.accounts && j <= |g.base.accounts[x].invited| && |copies| == |g.base.accounts[x].invited| - j
  {
  }

  /** Inviting an offline account again brings back its whole subtree, and touches nothing else. */
  lemma {:induction false} ReenableOne(g: Graph, x: Address, e: Inviter, s: State, off: set<Address>,
                                       part: set<Address>, fuel: nat)
    requires x in g.base.accounts && Inner(g, x) && SameEntry(g, x, e) && Partly(g, s, off) &&
             Subtree(g, x, off, part) && fuel > g.rank(x)
    ensures
      var o := Update(s, Reinvited(g.base.accounts[x], e), g.root, fuel);
      o.Done? && Partly(g, o.s, off - part) && OnlyIn(s, o.s, part)
    decreases g.rank(x), 1
  {
    hide *;
    var b, a1 := g.base.accounts[x], Online(g.base.accounts[x], e);
    EntryIsNew(g, x, e);
    if b.content.Some? {
      var copies := Notified(s, a1, b.invited);
      var rest := CopiesOf(g, x, e, s, off, part, fuel);
      ReenableEach(g, x, 0, s, copies, off, rest, fuel - 1);
      var s2 := UpdateEach(s, copies, g.root, fuel - 1).s;
      RestoredIsQuiet(g, x, e, s2, off, part, fuel - 1);
      UpdateReinvited(s, b, e, s2, g.root, fuel);
      OnlineAgain(g, x, e, s2, Entered(s2, a1).(accounts := s2.accounts[x := a1]), off - rest);
      OnlyInBoth(s, s2, Entered(s2, a1).(accounts := s2.accounts[x := a1]), rest, {x});
      assert rest + {x} == part && off - rest - {x} == off - part;
    } else {
      UpdateReinvitedEmpty(s, b, e, g.root, fuel);
      SubtreeAlone(g, x, off, part);
      OnlineAgain(g, x, e, s, s.(accounts := s.accounts[x := a1]), off);
    }
  }

  lemma EntryIsNew(g: Graph, x: Address, e: Inviter)
    requires Inner(g, x) && SameEntry(g, x, e)
    ensures
      var b := g.base.accounts[x];
      b.address == x && x != g.root && e.timestamp > 0 && (b.content.Some? ==> b.timestamp > e.timestamp) &&
      (b.content.None? ==> b.invited == []) && Refreshed(Online(b, e), b.invited) == b.invited
  {
    InnerAccount(g, x);
    OnlineRestores(g, x, e);
  }

  lemma CopiesOf(g: Graph, x: Address, e: Inviter, s: State, off: set<Address>, part: set<Address>, fuel: nat)
    returns (rest: set<Address>)
    requires Inner(g, x) && SameEntry(g, x, e) && Partly(g, s, off) && Subtree(g, x, off, part) && fuel > g.rank(x)
    ensures rest == part - {x} && x in part && part <= off && Subtrees(g, x, 0, off, rest)
    ensures Copies(g, x, 0, Notified(s, Online(g.base.accounts[x], e), g.base.accounts[x].invited))
  {
    rest := part - {x};
    SubtreeBelow(g, x, off, part);
    InnerAccount(g, x);
    NotifiedAreCopies(g, x, 0, s, Online(g.base.accounts[x], e));
    assert g.base.accounts[x].invited[0..] == g.base.accounts[x].invited;
  }

  lemma RestoredIsQuiet(g: Graph, x: Address, e: Inviter, s: State, off: set<Address>, part: set<Address>, fuel: nat)
    requires Inner(g, x) && Subtree(g, x, off, part) && Partly(g, s, off - (part - {x})) && fuel >= g.rank(x)
    ensures
      var a1 := Online(g.base.accounts[x], e);
      Quiet(Entered(s, a1), a1, g.root, fuel)
  {
    var a1 := Online(g.base.accounts[x], e);
    SubtreeBelow(g, x, off, part);
    if g.base.accounts[x].invited != [] {
      var c := ChildOf(g, x, 0);
      forall i | 0 <= i < |g.base.accounts[x].invited|
        ensures
          var c := g.base.accounts[x].invited[i].account;
          c in s.accounts && Restored(g.base.accounts[c], s.accounts[c])
      {
        var c := ChildOf(g, x, i);
      }
      CheckRestored(g, x, 0, Entered(s, a1), a1, fuel);
      assert g.base.accounts[x].invited[0..] == a1.invited;
    }
  }

  lemma SubtreeAlone(g: Graph, x: Address, off: set<Address>, part: set<Address>)
    requires Inner(g, x) && Subtree(g, x, off, part) && g.base.accounts[x].invited == []
    ensures part == {x} && x in off
  {
    SubtreeBelow(g, x, off, part);
    forall u ensures u in part <==> u == x { assert !UnderAny(g, x, 0, u); }
  }

  // ---- The theorem ------------------------------------------------------------------------------------

  /** In a forest the disabled accounts are the subtree of the account that lost its inviter. */
  lemma {:induction false} DisabledIsSubtree(g: Graph, x: Address, s: State, disabled: set<Address>, u: Address)
    requires Inner(g, x) && g.top == (g.base.accounts[x].inviters[0].account, x)
    requires Disabled(g, s, disabled) && disabled == NewlyDisabled(g.base, s)
    requires Closed(g, disabled)
    ensures u in disabled <==> Under(g, x, u)
    decreases g.height - g.rank(u)
  {
    if u in g.base.accounts && u != g.root && g.base.accounts[u].enabled {
      var b := g.base.accounts[u];
      assert GoodAccount(g, u) && TreeAccount(g.base, u);
      assert Settled(b, s.accounts[u], disabled, g.top, g.root);
      assert b.inviters == [b.inviters[0]] && b.inviters[1..] == [];
      assert Remaining(b.inviters[1..], disabled, g.top, u) == [];
      var q := b.inviters[0].account;
      if u != x {
        var q' := InviterAbove(g, u, 0);
        DisabledIsSubtree(g, x, s, disabled, q);
      }
    } else {
      NotUnder(g, x, u);
      if u in g.base.accounts {
        assert GoodAccount(g, u) && Settled(g.base.accounts[u], s.accounts[u], disabled, g.top, g.root);
      }
    }
  }

  lemma {:induction false} NotUnder(g: Graph, x: Address, u: Address)
    requires Inner(g, x) && !(u in g.base.accounts && u != g.root && g.base.accounts[u].enabled)
    ensures !Under(g, x, u)
  {
    assert u in g.base.accounts ==> GoodAccount(g, u);
  }

  /** ... and their records are offline, all others unchanged. */
  lemma DisabledIsOffline(g: Graph, x: Address, s: State, disabled: set<Address>)
    requires Inner(g, x) && g.top == (g.base.accounts[x].inviters[0].account, x)
    requires Disabled(g, s, disabled) && disabled == NewlyDisabled(g.base, s)
    requires Closed(g, disabled)
    ensures Partly(g, s, disabled) && Subtree(g, x, disabled, disabled)
    ensures forall c :: c in g.base.accounts && c !in disabled ==> s.accounts[c] == g.base.accounts[c]
  {
    forall u ensures Under(g, x, u) <==> u in disabled { DisabledIsSubtree(g, x, s, disabled, u); }
    forall c | c in g.base.accounts
      ensures s.accounts[c] == if c in disabled then Offline(g.base.accounts[c]) else g.base.accounts[c]
    {
      OneRecord(g, s, disabled, c);
    }
  }

  lemma OneRecord(g: Graph, s: State, disabled: set<Address>, c: Address)
    requires Grown(g) && c in g.base.accounts
    requires Disabled(g, s, disabled) && disabled == NewlyDisabled(g.base, s)
    ensures s.accounts[c] == if c in disabled then Offline(g.base.accounts[c]) else g.base.accounts[c]
  {
    hide Good, Has, Sound, Mirrored, InStepAt, Chosen, StrictlyOldest, Remaining, Forest, TreeAccount, SameContent;
    var b, r := g.base.accounts[c], s.accounts[c];
    SettledRecord(g, s, disabled, c);
    if c != g.root && b.enabled {
      SingleRecord(g, c, disabled);
      if r.inviters != [] {
        SingleOldest(r.inviters, r.activeInviter);
        assert Trimmed(b, b.activeInviter) == b;
      }
      SameRecords(r, b);
    }
  }

  lemma SettledRecord(g: Graph, s: State, disabled: set<Address>, c: Address)
    requires Grown(g) && c in g.base.accounts && Disabled(g, s, disabled)
    ensures c in s.accounts && Settled(g.base.accounts[c], s.accounts[c], disabled, g.top, g.root) &&
            g.base.accounts[c].address == c
    ensures c != g.root ==> WellInvited(g.base.accounts[c])
  {
    assert GoodAccount(g, c);
  }

  lemma SingleRecord(g: Graph, c: Address, disabled: set<Address>)
    requires Grown(g) && c in g.base.accounts && c != g.root && g.base.accounts[c].enabled
    ensures
      var b := g.base.accounts[c];
      |b.inviters| == 1 && b.inviters == [b.activeInviter] &&
      (b.content.Some? ==> b.timestamp > b.activeInviter.timestamp) &&
      (Remaining(b.inviters, disabled, g.top, c) == [] || Remaining(b.inviters, disabled, g.top, c) == b.inviters)
  {
    var b := g.base.accounts[c];
    assert GoodAccount(g, c) && TreeAccount(g.base, c);
    assert b.inviters == [b.inviters[0]] && b.inviters[1..] == [];
    assert Remaining(b.inviters[1..], disabled, g.top, c) == [];
  }

  lemma SingleOldest(inviters: seq<Inviter>, i: Inviter)
    requires |inviters| == 1 && StrictlyOldest(inviters, i)
    ensures i == inviters[0]
  {
  }

  /** Two records with the same fields. */
  lemma SameRecords(r: Account, b: Account)
    requires r.address == b.address && r.invited == b.invited && SameContent(r, b)
    ensures r.inviters == b.inviters && r.activeInviter == b.activeInviter && r.enabled == b.enabled ==> r == b
    ensures r.inviters == [] && r.activeInviter == NO_INVITER && !r.enabled ==> r == Offline(b)
  {
  }

  /** Everything is back: every record up to bookkeeping, the merklehead, and what the delta log shows. */
  ghost predicate BackTo(base: State, s: State) {
    s.accounts.Keys == base.accounts.Keys && s.merkle == base.merkle &&
    forall c :: (c in base.accounts ==> Restored(base.accounts[c], s.accounts[c])) &&
                (LogShows(s.history, c) <==> LogShows(base.history, c))
  }

  lemma NothingOff(g: Graph, s: State)
    requires Grown(g) && Partly(g, s, {})
    ensures BackTo(g.base, s)
  {
    forall c
      ensures Get(s.merkle, c) == Get(g.base.merkle, c) && (LogShows(s.history, c) <==> LogShows(g.base.history, c))
    {
      assert InStepAt(s, c) && InStepAt(g.base, c);
      assert c in g.base.accounts ==> Restored(g.base.accounts[c], s.accounts[c]);
    }
    forall c ensures c in s.merkle <==> c in g.base.merkle { assert Get(s.merkle, c) == Get(g.base.merkle, c); }
    forall c | c in s.merkle ensures s.merkle[c] == g.base.merkle[c] {
      assert Get(s.merkle, c) == Get(g.base.merkle, c);
    }
    assert s.merkle == g.base.merkle;
  }

  /** Removing the inviter of `x` disables exactly the accounts under `x`. Adding the same invite again brings
      all of them back, with their active inviters and content, and the merklehead is what it was; no other
      account is touched by either. */
  lemma DropThenReinvite(g: Graph, x: Address, e: Inviter, fuel: nat)
    requires Inner(g, x) && |g.base.accounts[x].inviters| == 1
    requires g.top == (g.base.accounts[x].inviters[0].account, x) &&
             SameInviter(e, g.base.accounts[x].inviters[0]) && fuel > g.rank(x)
    ensures
      var dropped := Update(g.base, Uninvited(g.base.accounts[x], g.top.0), g.root, fuel);
      dropped.Done? && dropped.s.accounts.Keys == g.base.accounts.Keys &&
      (forall u :: u in NewlyDisabled(g.base, dropped.s) <==> Under(g, x, u)) &&
      var again := Update(dropped.s, Invited(dropped.s.accounts[x], e), g.root, fuel);
      again.Done? && BackTo(g.base, again.s) &&
      forall c {:trigger Under(g, x, c)} :: c in g.base.accounts && !Under(g, x, c) ==>
        dropped.s.accounts[c] == again.s.accounts[c] == g.base.accounts[c]
  {
    hide Good, Forest, Update, Disabled, Closed, Partly, LogShows, Restored, Has, GoodAccount;
    var p := g.top.0;
    assert g.base.accounts[x].inviters[0].account == p && Has(g.base.accounts[x].inviters, p) by {
      HasFirst(g.base.accounts[x].inviters);
    }
    DisableIsExact(g, p, x, fuel);
    var s1 := Update(g.base, Uninvited(g.base.accounts[x], p), g.root, fuel).s;
    var disabled := NewlyDisabled(g.base, s1);
    DisabledIsOffline(g, x, s1, disabled);
    assert Under(g, x, x);
    OfflineCopy(g, x, s1, disabled, e);
    ReenableOne(g, x, e, s1, disabled, disabled, fuel);
    assert disabled - disabled == {};
    var s2 := Update(s1, Reinvited(g.base.accounts[x], e), g.root, fuel).s;
    NothingOff(g, s2);
    forall c {:trigger Under(g, x, c)} | c in g.base.accounts && !Under(g, x, c)
      ensures s1.accounts[c] == s2.accounts[c] == g.base.accounts[c]
    {
      assert c !in disabled && Get(s2.accounts, c) == Get(s1.accounts, c);
    }
  }

  lemma HasFirst(inviters: seq<Inviter>)
    requires inviters != []
    ensures Has(inviters, inviters[0].account)
  {
  }

  lemma OfflineCopy(g: Graph, x: Address, s: State, off: set<Address>, e: Inviter)
    requires Inner(g, x) && Partly(g, s, off) && x in off
    ensures x in s.accounts && Invited(s.accounts[x], e) == Reinvited(g.base.accounts[x], e)
  {
  }

  // ---- An instance ------------------------------------------------------------------------------------

  /** Three generations: the root invites an account with content, and that one invites another. */
  function SmallBase(root: Address, x: Address, y: Address, content: Multihash): State {
    var genesis := Inviter(ZERO_ADDRESS, 0, 0, 1, 0);
    var ofX, ofY := Inviter(root, 1, 0, 10, 0), Inviter(x, 10, 1, 15, 0);
    State(map[root := Account(root, [genesis], [Invite(x, 10, 0, true)], genesis, 0, None, true),
              x := Account(x, [ofX], [Invite(y, 15, 0, true)], ofX, 20, Some(content), true),
              y := Account(y, [ofY], [], ofY, 0, None, true)],
          map[x := 20], [Event(x, false)])
  }

  function SmallGraph(root: Address, x: Address, y: Address, content: Multihash): Graph {
    var rank := (c: Address) => if c == root then 2 else if c == x then 1 else 0;
    Graph(SmallBase(root, x, y, content), root, rank, 3, (root, x))
  }

  lemma SmallInStep(root: Address, x: Address, y: Address, content: Multihash, c: Address)
    requires root != x && x != y && root != y
    ensures InStepAt(SmallBase(root, x, y, content), c)
  {
    var base := SmallBase(root, x, y, content);
    assert base.history[..0] == [];
    assert !LogShows([], c);
  }

  lemma SmallGood(root: Address, x: Address, y: Address, content: Multihash)
    requires root != x && x != y && root != y
    ensures Good(SmallGraph(root, x, y, content))
  {
    hide InStepAt;
    var g := SmallGraph(root, x, y, content);
    forall c ensures InStepAt(g.base, c) { SmallInStep(root, x, y, content, c); }
    OnlyInvite(g.base.accounts[root], x);
    OnlyInvite(g.base.accounts[x], y);
    OnlyInviter(g.base.accounts[x], Inviter(root, 1, 0, 10, 0));
    OnlyInviter(g.base.accounts[y], Inviter(x, 10, 1, 15, 0));
    assert forall c :: !Invites(g.base.accounts[y], c);
    hide Chosen, Has, Invites;
    assert WellInvited(g.base.accounts[x]) && WellInvited(g.base.accounts[y]);
    forall p | (p, x) != g.top ensures Mirrored(g.base, g.base.accounts[x], p) {}
    forall p ensures Mirrored(g.base, g.base.accounts[y], p) {}
    assert GoodAccount(g, root) && GoodAccount(g, x) && GoodAccount(g, y);
  }

  /** The hypotheses of the theorems can be met, with somebody to lose. */
  lemma ThreeGenerations(root: Address, x: Address, y: Address, content: Multihash)
    requires root != x && x != y && root != y
    ensures
      var g := SmallGraph(root, x, y, content);
      Inner(g, x) && |g.base.accounts[x].inviters| == 1 && g.top == (g.base.accounts[x].inviters[0].account, x) &&
      Under(g, x, y) && g.base.accounts[y].enabled && x in g.base.merkle
  {
    hide Good;
    var g := SmallGraph(root, x, y, content);
    SmallGood(root, x, y, content);
    assert Knows(g.base, x, Invite(y, 15, 0, true));
    assert TreeAccount(g.base, x) && TreeAccount(g.base, y);
    assert Parent(g, y, x) && Under(g, x, x);
  }

  lemma OnlyInvite(a: Account, c: Address)
    requires |a.invited| == 1 && a.invited[0].account == c
    ensures forall d :: Invites(a, d) <==> d == c
  {
    assert a.invited[0].account == c;
  }

  lemma OnlyInviter(a: Account, i: Inviter)
    requires a.inviters == [i]
    ensures forall p :: Has(a.inviters, p) <==> p == i.account
    ensures Chosen(a.inviters) == Some(i)
  {
    assert a.inviters[0].account == i.account;
  }
}
