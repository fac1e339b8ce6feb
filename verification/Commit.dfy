/** The acceptance and commit part of ValidateAndSave (sigbundle/sigbundle.go): a newer post replaces the
    old one, its invites are compared with the old ones, and the cascade runs over the accounts concerned.
    The documents themselves are dealt with in UpdateRoot.dfy. */
module Commits {
  import opened Basics
  import opened DeltaLogs
  import opened Accounts
  import opened Cascade
  import opened CascadeDisable
  import opened CascadeIndexes
  import opened CascadeRecords
  import opened UpdatedInvites

  /** A post that passed the signature checks: its root document, its time and the invites found in it. */
  datatype Post = Post(account: Address, root: Multihash, timestamp: nat, invites: seq<Invite>)

  /** The account is known and enabled, and the post is newer than its last one and than its own invite. */
  predicate Admissible(s: State, post: Post) {
    var a := Fetch(s, post.account, false);
    a.Some? && post.timestamp > a.value.timestamp && post.timestamp > a.value.activeInviter.timestamp
  }

  /** The root document is another one than before. */
  predicate IsChange(s: State, post: Post) {
    post.account in s.accounts && s.accounts[post.account].content != Some(post.root)
  }

  /** The account with the post. When the content stays the same not even the timestamp is updated. */
  function Posted(a: Account, post: Post): Account {
    if a.content != Some(post.root)
    then a.(content := Some(post.root), timestamp := post.timestamp, invited := Refreshed(a, post.invites))
    else a
  }

  /** The state before the invited accounts are looked at. */
  function Stored(s: State, a: Account, post: Post): State {
    State(s.accounts[a.address := Posted(a, post)], s.merkle[a.address := post.timestamp],
          s.history + [Event(a.address, false)])
  }

  /** The order in which the dropped invites are visited is any that visits them all, and they can be removed.
      They are not looked at when the content stays the same. */
  ghost predicate Order(s: State, a: Account, post: Post, order: seq<Address>) {
    a.content != Some(post.root) ==>
      Visits(order, Dropped(a, a.invited, post.invites)) &&
      forall j :: 0 <= j < |order| ==> Removable(s, order[j], a.address)
  }

  /** The accounts concerned. */
  ghost function Concerned(s: State, a: Account, post: Post, order: seq<Address>): seq<Account>
    requires Order(s, a, post, order)
  {
    if a.content != Some(post.root) then Returned(s, a, a.invited, post.invites, order) else []
  }

  // ---- Everything stays in step -----------------------------------------------------------------------

  /** The post leaves the forest a forest: its invites go to different accounts below the sender. */
  ghost predicate Proper(f: Shape, s: State, post: Post) {
    AllInStep(f, s) && f.Invitees(post.invites, post.account)
  }

  lemma RefreshedInvitees(f: Shape, a: Account, invites: seq<Invite>, x: Address)
    requires f.Invitees(invites, x)
    ensures f.Invitees(Refreshed(a, invites), x)
  {
  }

  lemma StoredInStep(f: Shape, s: State, a: Account, post: Post)
    requires Proper(f, s, post) && Admissible(s, post) && Fetch(s, post.account, false) == Some(a)
    ensures OnlyAt(s, Stored(s, a, post), a.address)
    ensures AllInStep(f, Stored(s, a, post)) <==> IsChange(s, post)
  {
    var s1, x := Stored(s, a, post), a.address;
    LogAppend(s.history, x, false, x);
    forall c {:trigger Untouched(s, s1, c)} | c != x ensures Untouched(s, s1, c) { LogAppend(s.history, x, false, c); }
    forall c | c != x ensures f.Fits(s1, c) {
      assert Untouched(s, s1, c) && f.Fits(s, c);
      FitsSame(f, s, s1, c);
    }
    assert f.Fits(s, x);
    RefreshedInvitees(f, a, post.invites, x);
    assert f.Fits(s1, x) <==> IsChange(s, post);
  }

  lemma ChildrenOf(f: Shape, s: State, a: Account, post: Post, order: seq<Address>, j: nat)
    requires Proper(f, s, post) && Fetch(s, post.account, false) == Some(a) && Order(s, a, post, order)
    requires a.content != Some(post.root) && Distinct(a.invited) && Distinct(post.invites)
    requires j < |Returned(s, a, a.invited, post.invites, order)|
    ensures
      var copy := Returned(s, a, a.invited, post.invites, order)[j];
      f.Child(copy.address, a.address) && FreshCopy(f, s, copy)
  {
    var copies := Returned(s, a, a.invited, post.invites, order);
    var c := copies[j].address;
    ReturnedAreDistinct(s, a, a.invited, post.invites, order);
    CopyForIs(copies, j);
    CopyForJoin(Changed(s, a, Indexed(a.invited), post.invites), Removals(s, a.address, order), c);
    ChangedIs(s, a, Indexed(a.invited), post.invites, c);
    RemovalsAre(s, a.address, order, c);
    DroppedIs(a, a.invited, post.invites, c);
    assert f.Fits(s, a.address) && f.Fits(s, c);
    if News(s, a, Indexed(a.invited), post.invites, c).Some? {
      InvitedTo(f, a, post.invites, c);
    } else {
      assert c in order;
      InvitedTo(f, a, a.invited, c);
      var k :| 0 <= k < |order| && order[k] == c;
      assert Removable(s, order[k], a.address);
    }
  }

  lemma {:induction false} CopyForIs(copies: seq<Account>, j: nat)
    requires j < |copies| && DistinctAddresses(copies)
    ensures CopyFor(copies, copies[j].address) == Some(copies[j])
  {
    if j > 0 { CopyForIs(copies[1..], j - 1); }
  }

  lemma {:induction false} InvitedTo(f: Shape, a: Account, invites: seq<Invite>, c: Address)
    requires f.Invitees(invites, a.address) && InviteOf(a, invites, c).Some?
    ensures f.Child(c, a.address)
  {
    if invites[0].account != c || !Counts(a, invites[0]) {
      assert f.Invitees(invites[1..], a.address);
      InvitedTo(f, a, invites[1..], c);
    } else {
      assert f.Child(invites[0].account, a.address);
    }
  }

  lemma ConcernedAreFresh(f: Shape, s: State, a: Account, post: Post, order: seq<Address>)
    requires Proper(f, s, post) && Admissible(s, post) && Fetch(s, post.account, false) == Some(a) &&
             Order(s, a, post, order)
    ensures FreshCopies(f, Stored(s, a, post), a.address, Concerned(s, a, post, order))
  {
    if a.content != Some(post.root) {
      var s1, copies := Stored(s, a, post), Returned(s, a, a.invited, post.invites, order);
      assert f.Fits(s, a.address);
      assert Distinct(a.invited) && Distinct(post.invites);
      ReturnedAreDistinct(s, a, a.invited, post.invites, order);
      forall j | 0 <= j < |copies| ensures FreshCopy(f, s1, copies[j]) && f.Child(copies[j].address, a.address) {
        ChildrenOf(f, s, a, post, order, j);
      }
    }
  }

  /** A post in a forest ends, and if nothing fails the account bucket, the merklehead and the delta log agree
      afterwards exactly if the post changed the content: posting the same content again with a newer time
      moves the merklehead ahead of the account. */
  lemma CommitInStepIff(f: Shape, s: State, a: Account, post: Post, order: seq<Address>, root: Address, fuel: nat)
    requires Proper(f, s, post) && Admissible(s, post) && Fetch(s, post.account, false) == Some(a) &&
             Order(s, a, post, order)
    ensures
      var o := UpdateEach(Stored(s, a, post), Concerned(s, a, post, order), root, fuel);
      (fuel >= f.rank(a.address) ==> !o.OutOfFuel?) && (o.Done? ==> (AllInStep(f, o.s) <==> IsChange(s, post)))
  {
    hide InStepAt, FreshCopy, LogShows;
    var s1, x, copies := Stored(s, a, post), a.address, Concerned(s, a, post, order);
    StoredInStep(f, s, a, post);
    ConcernedAreFresh(f, s, a, post, order);
    AllButOne(f, s, s1, x);
    UpdateEachKeeps(f, s1, x, copies, root, fuel);
    var o := UpdateEach(s1, copies, root, fuel);
    if o.Done? { BelowKeepsAll(f, s1, o.s, x); }
  }

  lemma AllButOne(f: Shape, s: State, s1: State, x: Address)
    requires AllInStep(f, s) && OnlyAt(s, s1, x)
    ensures f.OrderlyBelow(s1, x)
    ensures forall c {:trigger f.Fits(s1, c)} :: c != x ==> f.Fits(s1, c)
  {
    forall c {:trigger f.Fits(s1, c)} | c != x ensures f.Fits(s1, c) {
      assert Untouched(s, s1, c) && f.Fits(s, c);
      FitsSame(f, s, s1, c);
    }
  }

  lemma BelowKeepsAll(f: Shape, s1: State, s2: State, x: Address)
    requires f.OrderlyBelow(s2, x) && f.OnlyStrictlyUnder(s1, s2, x)
    requires forall c {:trigger f.Fits(s1, c)} :: c != x ==> f.Fits(s1, c)
    ensures AllInStep(f, s2) <==> AllInStep(f, s1)
  {
    forall c | c != x ensures f.Fits(s2, c) {
      if !f.Under(x, c) {
        assert Untouched(s1, s2, c) && f.Fits(s1, c);
        FitsSame(f, s1, s2, c);
      }
    }
    assert Untouched(s1, s2, x);
    if f.Fits(s1, x) { FitsSame(f, s1, s2, x); }
    if f.Fits(s2, x) {
      assert Untouched(s2, s1, x);
      FitsSame(f, s2, s1, x);
    }
  }

  // ---- What is stored -----------------------------------------------------------------------------------

  /** The posted invites, active exactly if they are newer than the account's own active invite. */
  ghost predicate ListsPosted(invited: seq<Invite>, posted: seq<Invite>, active: Inviter) {
    |invited| == |posted| && forall j :: 0 <= j < |posted| ==>
      invited[j].account == posted[j].account && invited[j].timestamp == posted[j].timestamp &&
      invited[j].lvlGap == posted[j].lvlGap && (invited[j].active <==> posted[j].timestamp > active.timestamp)
  }

  /** The record `r` of an account that was stored as `a` before it posted. */
  ghost predicate HoldsPost(r: Account, a: Account, post: Post) {
    r.address == a.address && r.enabled == a.enabled && r.inviters == a.inviters &&
    r.activeInviter == a.activeInviter &&
    if a.content == Some(post.root) then r.content == a.content && r.timestamp == a.timestamp && r.invited == a.invited
    else
      r.content == Some(post.root) && r.timestamp == post.timestamp &&
      ListsPosted(r.invited, post.invites, a.activeInviter)
  }

  lemma ConcernedKeep(f: Shape, s: State, a: Account, post: Post, order: seq<Address>, root: Address, fuel: nat)
    requires Proper(f, s, post) && Admissible(s, post) && Fetch(s, post.account, false) == Some(a) &&
             Order(s, a, post, order)
    ensures
      var s1, copies := Stored(s, a, post), Concerned(s, a, post, order);
      OnlyAt(s, s1, a.address) && f.OrderlyBelow(s1, a.address) && FreshCopies(f, s1, a.address, copies) &&
      BelowKept(f, s1, UpdateEach(s1, copies, root, fuel), a.address)
  {
    hide InStepAt, FreshCopy, LogShows;
    var s1, copies := Stored(s, a, post), Concerned(s, a, post, order);
    StoredInStep(f, s, a, post);
    ConcernedAreFresh(f, s, a, post, order);
    AllButOne(f, s, s1, a.address);
    UpdateEachKeeps(f, s1, a.address, copies, root, fuel);
  }

  /** After a post that did not fail, the account holds it: the posted root document, its time and its invites if
      the content has changed, and what it held before otherwise. The merklehead has the time of the post. */
  lemma PostIsStored(f: Shape, s: State, a: Account, post: Post, order: seq<Address>, root: Address, fuel: nat)
    requires Proper(f, s, post) && Admissible(s, post) && Fetch(s, post.account, false) == Some(a) &&
             Order(s, a, post, order)
    requires UpdateEach(Stored(s, a, post), Concerned(s, a, post, order), root, fuel).Done?
    ensures
      var s2 := UpdateEach(Stored(s, a, post), Concerned(s, a, post, order), root, fuel).s;
      post.account in s2.accounts && HoldsPost(s2.accounts[post.account], a, post) &&
      s2.accounts[post.account].address == post.account &&
      Get(s2.merkle, post.account) == Some(post.timestamp) &&
      Flags(s2.history, post.account) == Flags(s.history, post.account) + [false]
  {
    hide UpdateEach, Concerned, Order, InStepAt, FreshCopies;
    var s1, x := Stored(s, a, post), a.address;
    ConcernedKeep(f, s, a, post, order, root, fuel);
    var s2 := UpdateEach(s1, Concerned(s, a, post, order), root, fuel).s;
    assert Untouched(s1, s2, x);
    SameRecord(s1, s2, x);
    LogAppend(s.history, x, false, x);
    assert Get(s2.merkle, x) == Get(s1.merkle, x);
  }

  // ---- What becomes of the invites --------------------------------------------------------------------------

  /** The invite for `c` in a list, if there is one. */
  ghost predicate InviteFor(invites: seq<Invite>, c: Address, i: Option<Invite>) {
    (i.Some? ==> i.value in invites && i.value.account == c) &&
    (i.None? ==> forall j :: 0 <= j < |invites| ==> invites[j].account != c)
  }

  /** What a post with changed content means for an account, given the old and the posted invite for it and the
      sender's active invite. */
  function OnPost(active: Inviter, before: Option<Invite>, posted: Option<Invite>): Effect {
    if posted.Some? && posted.value.timestamp > active.timestamp then
      if before.Some? && before.value.timestamp == posted.value.timestamp && before.value.lvlGap == posted.value.lvlGap
      then Spared else Joins(active, posted.value)
    else if before.Some? && before.value.timestamp > active.timestamp then Leaves
    else Spared
  }

  lemma {:induction false} InviteOfIs(a: Account, invites: seq<Invite>, c: Address, i: Option<Invite>)
    requires Distinct(invites) && InviteFor(invites, c, i)
    ensures InviteOf(a, invites, c) == if i.Some? && i.value.timestamp > a.activeInviter.timestamp then i else None
  {
    if invites != [] {
      var first, rest := invites[0], invites[1..];
      assert invites == [first] + rest;
      forall j | 0 <= j < |rest| ensures rest[j].account != first.account { assert invites[j + 1] == rest[j]; }
      if first.account == c {
        InviteOfAbsent(a, rest, c);
      } else {
        forall j | 0 <= j < |rest| ensures rest[j] == invites[j + 1] {}
        InviteOfIs(a, rest, c, i);
      }
    }
  }

  lemma {:induction false} IndexedIs(invites: seq<Invite>, c: Address, i: Option<Invite>)
    requires Distinct(invites) && InviteFor(invites, c, i)
    ensures Get(Indexed(invites), c) == i
  {
    if invites != [] {
      var n := |invites| - 1;
      var init, last := invites[..n], invites[n];
      assert invites == init + [last];
      if last.account != c {
        forall j | 0 <= j < n ensures init[j] == invites[j] {}
        IndexedIs(init, c, i);
      }
    }
  }

  lemma {:induction false} CopyForAt(copies: seq<Account>, c: Address) returns (k: nat)
    requires CopyFor(copies, c).Some?
    ensures k < |copies| && copies[k] == CopyFor(copies, c).value && copies[k].address == c
  {
    if copies[0].address == c {
      k := 0;
    } else {
      k := CopyForAt(copies[1..], c);
      k := k + 1;
    }
  }

  /** UpdateInvited returns exactly the accounts for which the post means something, each with its new entry, or
      without one. */
  lemma ReturnedFor(s: State, a: Account, invited: seq<Invite>, invites: seq<Invite>, order: seq<Address>, c: Address,
                    before: Option<Invite>, posted: Option<Invite>)
    requires Distinct(invited) && Distinct(invites) && Visits(order, Dropped(a, invited, invites))
    requires forall j :: 0 <= j < |order| ==> Removable(s, order[j], a.address)
    requires InviteFor(invited, c, before) && InviteFor(invites, c, posted)
    ensures
      var copy := CopyFor(Returned(s, a, invited, invites, order), c);
      match OnPost(a.activeInviter, before, posted)
      case Joins(_, i) => copy == Some(Invited(FetchOrNew(s, c), InviterFor(a, i)))
      case Leaves => Removable(s, c, a.address) && copy == Some(Uninvited(s.accounts[c].(address := c), a.address))
      case _ => copy == None
  {
    CopyForJoin(Changed(s, a, Indexed(invited), invites), Removals(s, a.address, order), c);
    ChangedIs(s, a, Indexed(invited), invites, c);
    RemovalsAre(s, a.address, order, c);
    DroppedIs(a, invited, invites, c);
    InviteOfIs(a, invited, c, before);
    InviteOfIs(a, invites, c, posted);
    IndexedIs(invited, c, before);
    assert Get(Indexed(invited), c) == before;
    if c in order {
      var j :| 0 <= j < |order| && order[j] == c;
      assert Removable(s, order[j], a.address);
    }
  }

  /** A post with changed content, told by the two lists of invites: a new or changed invite that counts makes its
      account list the sender; an invite that counted and is not posted any more, or does not count any more, is
      taken away; nothing else below the sender changes. */
  lemma PostTakesEffect(f: Shape, s: State, a: Account, post: Post, order: seq<Address>, root: Address, fuel: nat,
                        c: Address, before: Option<Invite>, posted: Option<Invite>)
    requires Proper(f, s, post) && Admissible(s, post) && Fetch(s, post.account, false) == Some(a) &&
             Order(s, a, post, order)
    requires a.content != Some(post.root) && f.Child(c, a.address)
    requires InviteFor(a.invited, c, before) && InviteFor(post.invites, c, posted)
    requires UpdateEach(Stored(s, a, post), Concerned(s, a, post, order), root, fuel).Done?
    ensures Happens(f, s, UpdateEach(Stored(s, a, post), Concerned(s, a, post, order), root, fuel).s, a.address, c,
                    OnPost(a.activeInviter, before, posted), root)
  {
    hide Untouched, InStepAt, FreshCopy, UpdateEach, Recorded, Tells, Stored, Changed, Removals, UpToDate, Taken,
         Happens;
    var x, s1, copies := a.address, Stored(s, a, post), Concerned(s, a, post, order);
    var s2, e := UpdateEach(s1, copies, root, fuel).s, OnPost(a.activeInviter, before, posted);
    ConcernedKeep(f, s, a, post, order, root, fuel);
    assert f.Fits(s, x);
    assert Distinct(a.invited) && Distinct(post.invites);
    ReturnedFor(s, a, a.invited, post.invites, order, c, before, posted);
    SparedAt(f, s, s1, x, c);
    if e.Spared? {
      UpdateEachFrame(f, s1, x, copies, root, fuel);
      CopyForNone(copies, c);
      forall j | 0 <= j < |copies| ensures f.Child(copies[j].address, x) && copies[j].address != c {}
      SparedBy(f, s1, s2, x, c, CopyAddresses(copies));
      SparedMeans(f, s1, s2, x, c, root);
      HappensLater(f, s, s1, s2, x, c, e, root);
    } else {
      var k := CopyForAt(copies, c);
      UpdateEachStores(f, s1, x, copies, root, fuel, k);
      CopyTakesEffect(f, s, s2, a, c, e, copies[k], root);
    }
  }

  lemma CopyTakesEffect(f: Shape, s: State, s2: State, a: Account, c: Address, e: Effect, copy: Account, root: Address)
    requires StoredFrom(s2, copy, root) && copy.address == c
    requires match e
             case Joins(active, i) => active == a.activeInviter && i.account == c &&
                                      copy == Invited(FetchOrNew(s, c), InviterFor(a, i))
             case Leaves => Removable(s, c, a.address) &&
                            copy == Uninvited(s.accounts[c].(address := c), a.address)
             case _ => false
    ensures Happens(f, s, s2, a.address, c, e, root)
  {
    hide UpToDate, Taken;
    if e.Joins? {
      InvitedHappens(f, s, s2, a, e.invite, root);
    } else {
      EntryWithout(s.accounts[c].inviters, a.address, a.address);
      forall y {:trigger EntryAt(s2, c, y)} | y != a.address ensures EntryAt(s2, c, y) == EntryAt(s, c, y) {
        EntryWithout(s.accounts[c].inviters, a.address, y);
      }
    }
  }

  // ---- An instance ------------------------------------------------------------------------------------

  /** One account with content, listed by merklehead and log. */
  function OneAccount(x: Address, content: Multihash): State {
    var inviter := Inviter(ZERO_ADDRESS, 0, 0, 1, 0);
    State(map[x := Account(x, [inviter], [], inviter, 20, Some(content), true)], map[x := 20], [Event(x, false)])
  }

  /** Signing the same content again with a newer time is admissible in a state where all is in step, and
      leaves the merklehead ahead of the account. */
  lemma SameContentAgain(f: Shape, x: Address, content: Multihash, root: Address, fuel: nat)
    ensures
      var s, post := OneAccount(x, content), Post(x, content, 21, []);
      var a := s.accounts[x];
      Proper(f, s, post) && Admissible(s, post) && Fetch(s, x, false) == Some(a) && Order(s, a, post, []) &&
      var o := UpdateEach(Stored(s, a, post), Concerned(s, a, post, []), root, fuel);
      o.Done? && !AllInStep(f, o.s) && o.s.merkle[x] == 21 && o.s.accounts[x].timestamp == 20
  {
    var s, post := OneAccount(x, content), Post(x, content, 21, []);
    forall c ensures f.Fits(s, c) {
      assert s.history[..0] == [];
      assert !LogShows([], c);
    }
    CommitInStepIff(f, s, s.accounts[x], post, [], root, fuel);
  }
}
