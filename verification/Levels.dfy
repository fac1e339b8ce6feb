/** Levels. An account's level is one more than its inviter's, plus the gap of the invite; what it knows of its
    inviter's level is what was noted when the entry was made. */
module Levels {
  import opened Basics
  import opened DeltaLogs
  import opened Accounts
  import opened Cascade
  import opened CascadeDisable
  import opened CascadeIndexes
  import opened CascadeRecords
  import CascadeReinvite
  import opened Commits
  import opened UpdatedInvites

  function LevelOf(a: Account): nat {
    AssignedLevel(a.activeInviter)
  }

  // ---- Levels are distances from the root -----------------------------------------------------------------

  /** `c` is under the inviter `p` and has noted the level that `p` has now. */
  ghost predicate Notes(s: State, c: Address, p: Address) {
    c in s.accounts && p in s.accounts && p != ZERO_ADDRESS &&
    s.accounts[c].activeInviter.account == p && s.accounts[c].activeInviter.activeLevel == LevelOf(s.accounts[p])
  }

  /** Each account of the chain is the inviter of the next. */
  ghost predicate Chain(s: State, path: seq<Address>) {
    path != [] && forall i :: 0 <= i < |path| - 1 ==> Notes(s, path[i + 1], path[i])
  }

  /** The gaps of the invites along the chain. */
  function Gaps(s: State, path: seq<Address>): nat {
    if |path| <= 1 then 0
    else
      var last := path[|path| - 1];
      Gaps(s, path[..|path| - 1]) + if last in s.accounts then s.accounts[last].activeInviter.lvlGap else 0
  }

  ghost predicate HasNoInviter(s: State, root: Address) {
    root in s.accounts && s.accounts[root].activeInviter.account == ZERO_ADDRESS
  }

  /** The level at the end of a chain from the root is the number of its invites and their gaps. */
  lemma {:induction false} LevelIsDistance(s: State, path: seq<Address>)
    requires Chain(s, path) && HasNoInviter(s, path[0])
    ensures
      var last := path[|path| - 1];
      last in s.accounts && LevelOf(s.accounts[last]) == |path| - 1 + Gaps(s, path)
  {
    if |path| > 1 {
      var init := path[..|path| - 1];
      forall i | 0 <= i < |init| - 1 ensures Notes(s, init[i + 1], init[i]) { assert Notes(s, path[i + 1], path[i]); }
      LevelIsDistance(s, init);
      assert Notes(s, path[|path| - 2 + 1], path[|path| - 2]);
    }
  }

  /** Every enabled account has noted the level of the account above it, up to the root. */
  ghost predicate Leveled(f: Shape, s: State, root: Address) {
    HasNoInviter(s, root) &&
    forall c :: c in s.accounts && s.accounts[c].enabled && c != root ==> LeveledAt(f, s, root, c)
  }

  ghost predicate LeveledAt(f: Shape, s: State, root: Address, c: Address) {
    Notes(s, c, f.up(c)) && f.Child(c, f.up(c)) && (f.up(c) == root || s.accounts[f.up(c)].enabled)
  }

  ghost function Above(f: Shape, s: State, c: Address): set<Address> {
    set u | u in s.accounts && f.rank(u) > f.rank(c)
  }

  /** Then every enabled account's level is its distance from the root. */
  lemma {:induction false} LevelsAreDistances(f: Shape, s: State, root: Address, c: Address)
    returns (path: seq<Address>)
    requires Leveled(f, s, root) && c in s.accounts && (c == root || s.accounts[c].enabled)
    ensures Chain(s, path) && path[0] == root && path[|path| - 1] == c
    ensures LevelOf(s.accounts[c]) == |path| - 1 + Gaps(s, path)
    decreases Above(f, s, c)
  {
    if c == root {
      path := [root];
    } else {
      var p := f.up(c);
      assert LeveledAt(f, s, root, c);
      assert p in Above(f, s, c) && p !in Above(f, s, p);
      var up := LevelsAreDistances(f, s, root, p);
      path := up + [c];
      forall i | 0 <= i < |path| - 1 ensures Notes(s, path[i + 1], path[i]) {
        assert i < |up| - 1 ==> Notes(s, up[i + 1], up[i]);
      }
    }
    LevelIsDistance(s, path);
  }

  // ---- Growing ----------------------------------------------------------------------------------------------

  /** Nobody has invited `c` so far, or nothing is left of it. */
  ghost predicate Bare(s: State, c: Address) {
    c in s.accounts ==>
      var r := s.accounts[c];
      r.inviters == [] && r.invited == [] && r.content == None && !r.enabled && r.activeInviter == NO_INVITER
  }

  ghost predicate SameOfferAs(i: Invite, j: Invite) {
    i.account == j.account && i.timestamp == j.timestamp && i.lvlGap == j.lvlGap
  }

  /** The post only adds invites to new accounts: those that count are old ones or go to bare accounts, and none of
      the old ones that counted is missing. */
  ghost predicate OnlyGrows(s: State, a: Account, post: Post, root: Address) {
    a.content != Some(post.root) &&
    (forall j :: 0 <= j < |post.invites| && post.invites[j].timestamp > a.activeInviter.timestamp ==>
       (exists k :: 0 <= k < |a.invited| && SameOfferAs(post.invites[j], a.invited[k])) ||
       (Bare(s, post.invites[j].account) && post.invites[j].account != root)) &&
    (forall k :: 0 <= k < |a.invited| && a.invited[k].timestamp > a.activeInviter.timestamp ==>
       exists j :: 0 <= j < |post.invites| && SameOfferAs(post.invites[j], a.invited[k]))
  }

  /** A copy of a bare account with its first inviter. */
  ghost predicate Newcomer(copy: Account, root: Address) {
    |copy.inviters| == 1 && copy.inviters[0].timestamp > 0 && copy.inviters[0].account != ZERO_ADDRESS &&
    copy.invited == [] && copy.content == None && !copy.enabled && copy.activeInviter == NO_INVITER &&
    copy.address != root
  }

  function Welcomed(copy: Account): Account {
    if copy.inviters == [] then copy else copy.(enabled := true, activeInviter := copy.inviters[0])
  }

  lemma NewcomerUpdate(s: State, copy: Account, root: Address, fuel: nat)
    requires Newcomer(copy, root) && fuel > 0
    ensures Update(s, copy, root, fuel) ==
            Done(s.(accounts := s.accounts[copy.address := Welcomed(copy)]))
  {
    var i, a1 := copy.inviters[0], Welcomed(copy);
    assert Chosen(copy.inviters) == Some(i);
    assert CheckAll(s, a1, a1.invited, root, fuel - 1) == Done(s);
    assert Finish(s, a1, true, root, fuel - 1) == Save(s, a1, root);
  }

  lemma {:induction false} NewcomersUpdate(s: State, copies: seq<Account>, root: Address, fuel: nat, u: Address)
    requires forall j :: 0 <= j < |copies| ==> Newcomer(copies[j], root)
    requires DistinctAddresses(copies) && UpdateEach(s, copies, root, fuel).Done?
    ensures
      var o := UpdateEach(s, copies, root, fuel);
      Get(o.s.accounts, u) == if CopyFor(copies, u).Some? then Some(Welcomed(CopyFor(copies, u).value))
                              else Get(s.accounts, u)
    decreases |copies|
  {
    if copies != [] {
      NewcomerUpdate(s, copies[0], root, fuel);
      var s1 := s.(accounts := s.accounts[copies[0].address := Welcomed(copies[0])]);
      hide Update;
      NewcomersUpdate(s1, copies[1..], root, fuel, u);
      CopyForNone(copies[1..], copies[0].address);
    }
  }

  lemma {:induction false} ConcernedCopy(f: Shape, s: State, a: Account, post: Post, order: seq<Address>, root: Address,
                                         k: nat)
    requires Proper(f, s, post) && Admissible(s, post) && Fetch(s, post.account, false) == Some(a) &&
             Order(s, a, post, order)
    requires OnlyGrows(s, a, post, root) && a.address != ZERO_ADDRESS && k < |Concerned(s, a, post, order)|
    ensures
      var copy := Concerned(s, a, post, order)[k];
      Newcomer(copy, root) && Bare(s, copy.address) && f.Child(copy.address, a.address) &&
      copy.inviters[0].account == a.address && copy.inviters[0].activeLevel == LevelOf(a)
  {
    var copies := Concerned(s, a, post, order);
    var c := copies[k].address;
    assert f.Fits(s, a.address);
    ConcernedAreFresh(f, s, a, post, order);
    ReturnedAreDistinct(s, a, a.invited, post.invites, order);
    CopyForIs(copies, k);
    var before := TheInvite(a.invited, c);
    var posted := TheInvite(post.invites, c);
    ReturnedFor(s, a, a.invited, post.invites, order, c, before, posted);
    var e := OnPost(a.activeInviter, before, posted);
    GrowthJoins(s, a, post, root, c, before, posted);
    assert e.Joins? && copies[k] == Invited(FetchOrNew(s, c), InviterFor(a, e.invite));
  }

  lemma TheInvite(invites: seq<Invite>, c: Address) returns (i: Option<Invite>)
    ensures InviteFor(invites, c, i)
  {
    if j :| 0 <= j < |invites| && invites[j].account == c {
      i := Some(invites[j]);
    } else {
      i := None;
    }
  }

  lemma SameAccountSameInvite(invites: seq<Invite>, c: Address, i: Option<Invite>, k: nat)
    requires Distinct(invites) && InviteFor(invites, c, i) && k < |invites| && invites[k].account == c
    ensures i == Some(invites[k])
  {
    if i.Some? {
      var m :| 0 <= m < |invites| && invites[m] == i.value;
      assert m == k;
    }
  }

  lemma OldIsPosted(s: State, a: Account, post: Post, root: Address, c: Address, before: Option<Invite>,
                    posted: Option<Invite>)
    requires OnlyGrows(s, a, post, root) && Distinct(post.invites)
    requires InviteFor(a.invited, c, before) && InviteFor(post.invites, c, posted)
    requires before.Some? && before.value.timestamp > a.activeInviter.timestamp
    ensures posted.Some? && SameOfferAs(posted.value, before.value)
  {
    var k :| 0 <= k < |a.invited| && a.invited[k] == before.value;
    var j :| 0 <= j < |post.invites| && SameOfferAs(post.invites[j], a.invited[k]);
    SameAccountSameInvite(post.invites, c, posted, j);
  }

  lemma NewIsBare(s: State, a: Account, post: Post, root: Address, c: Address, before: Option<Invite>,
                  posted: Option<Invite>)
    requires OnlyGrows(s, a, post, root) && Distinct(a.invited)
    requires InviteFor(a.invited, c, before) && InviteFor(post.invites, c, posted)
    requires posted.Some? && posted.value.timestamp > a.activeInviter.timestamp
    ensures (before.Some? && SameOfferAs(posted.value, before.value)) || (Bare(s, c) && c != root)
  {
    hide Bare;
    var j :| 0 <= j < |post.invites| && post.invites[j] == posted.value;
    if k :| 0 <= k < |a.invited| && SameOfferAs(post.invites[j], a.invited[k]) {
      SameAccountSameInvite(a.invited, c, before, k);
    }
  }

  /** A post that only grows means something for bare accounts only, which join. */
  lemma GrowthJoins(s: State, a: Account, post: Post, root: Address, c: Address, before: Option<Invite>,
                    posted: Option<Invite>)
    requires OnlyGrows(s, a, post, root) && Distinct(a.invited) && Distinct(post.invites)
    requires InviteFor(a.invited, c, before) && InviteFor(post.invites, c, posted)
    ensures
      var e := OnPost(a.activeInviter, before, posted);
      e.Spared? || (e.Joins? && e.invite.timestamp > 0 && Bare(s, c) && c != root)
  {
    hide OnlyGrows, Bare, InviteFor, Distinct;
    if before.Some? && before.value.timestamp > a.activeInviter.timestamp {
      OldIsPosted(s, a, post, root, c, before, posted);
    }
    if posted.Some? && posted.value.timestamp > a.activeInviter.timestamp {
      NewIsBare(s, a, post, root, c, before, posted);
    }
  }

  /** The record of any account after a post that only grows. */
  lemma GrownRecord(f: Shape, s: State, a: Account, post: Post, order: seq<Address>, root: Address, fuel: nat,
                    u: Address)
    requires Proper(f, s, post) && Admissible(s, post) && Fetch(s, post.account, false) == Some(a) &&
             Order(s, a, post, order)
    requires OnlyGrows(s, a, post, root) && a.address != ZERO_ADDRESS
    requires UpdateEach(Stored(s, a, post), Concerned(s, a, post, order), root, fuel).Done?
    ensures
      var s2 := UpdateEach(Stored(s, a, post), Concerned(s, a, post, order), root, fuel).s;
      (u == a.address ==>
         u in s2.accounts && s2.accounts[u].activeInviter == a.activeInviter && s2.accounts[u].enabled) &&
      (u != a.address ==>
         Get(s2.accounts, u) == Get(s.accounts, u) ||
         (Bare(s, u) && u != root && f.Child(u, a.address) && u in s2.accounts &&
          s2.accounts[u].activeInviter.account == a.address && s2.accounts[u].activeInviter.activeLevel == LevelOf(a)))
  {
    hide UpdateEach, Order, InStepAt, FreshCopy, Proper, OnlyGrows, Bare, Newcomer, Concerned;
    var s1, copies := Stored(s, a, post), Concerned(s, a, post, order);
    PostIsStored(f, s, a, post, order, root, fuel);
    ConcernedKeep(f, s, a, post, order, root, fuel);
    forall j | 0 <= j < |copies| ensures Newcomer(copies[j], root) {
      ConcernedCopy(f, s, a, post, order, root, j);
    }
    NewcomersUpdate(s1, copies, root, fuel, u);
    if CopyFor(copies, u).Some? {
      var k := CopyForAt(copies, u);
      ConcernedCopy(f, s, a, post, order, root, k);
      WelcomedIs(copies[k], root);
    }
  }

  lemma WelcomedIs(copy: Account, root: Address)
    requires Newcomer(copy, root)
    ensures Welcomed(copy).activeInviter == copy.inviters[0]
  {}

  /** As long as posts only add invites to new accounts, levels stay the distances from the root. */
  lemma GrowthKeepsLevels(f: Shape, s: State, a: Account, post: Post, order: seq<Address>, root: Address, fuel: nat)
    requires Proper(f, s, post) && Admissible(s, post) && Fetch(s, post.account, false) == Some(a) &&
             Order(s, a, post, order)
    requires OnlyGrows(s, a, post, root) && a.address != ZERO_ADDRESS && Leveled(f, s, root)
    requires UpdateEach(Stored(s, a, post), Concerned(s, a, post, order), root, fuel).Done?
    ensures Leveled(f, UpdateEach(Stored(s, a, post), Concerned(s, a, post, order), root, fuel).s, root)
  {
    hide UpdateEach, Order, InStepAt, FreshCopy, Proper, OnlyGrows, Stored, Concerned;
    var s2, x := UpdateEach(Stored(s, a, post), Concerned(s, a, post, order), root, fuel).s, a.address;
    GrownRecord(f, s, a, post, order, root, fuel, root);
    forall c | c in s2.accounts && s2.accounts[c].enabled && c != root ensures LeveledAt(f, s2, root, c) {
      GrownRecord(f, s, a, post, order, root, fuel, c);
      GrownRecord(f, s, a, post, order, root, fuel, x);
      if c == x || Get(s2.accounts, c) == Get(s.accounts, c) {
        assert LeveledAt(f, s, root, c);
        GrownRecord(f, s, a, post, order, root, fuel, f.up(c));
      }
    }
  }

  // ---- Noted levels can go stale ------------------------------------------------------------------------------

  /** When the copy `a` of an account is updated, an invited account that had noted its level, and keeps it as
      inviter, still has the right level noted exactly if the level stays the same. */
  lemma NotedStaysRightIff(f: Shape, s: State, a: Account, root: Address, fuel: nat, j: nat)
    requires f.Orderly(s, a.address) && FreshCopy(f, s, a) && j < |a.invited|
    requires a.address != root && a.inviters != [] && Update(s, a, root, fuel).Done?
    requires EntryAt(s, a.invited[j].account, a.address).Some?
    requires EntryAt(s, a.invited[j].account, a.address).value.activeLevel == LevelOf(a)
    ensures
      var o, c := Update(s, a, root, fuel), a.invited[j].account;
      a.address in o.s.accounts && EntryAt(o.s, c, a.address).Some? &&
      (EntryAt(o.s, c, a.address).value.activeLevel == LevelOf(o.s.accounts[a.address]) <==>
       LevelOf(o.s.accounts[a.address]) == LevelOf(a))
  {
    hide Update, Chosen, InStepAt, UpToDate, ComesBack;
    var c, s2 := a.invited[j].account, Update(s, a, root, fuel).s;
    InvitesTakeEffect(f, s, a, root, fuel, j);
    UpdateSaves(s, a, root, fuel);
    if Expected(a, s2.accounts[a.address], root, j).Spared? {
      assert f.Under(c, c);
      assert Untouched(s, s2, c);
      SameRecord(s, s2, c);
    }
  }

  /** The root invites `x` again with a gap of five: `x` moves to level six, `y` below it stays at level two. */
  lemma GapChangeIsMissed(root: Address, x: Address, y: Address, content: Multihash)
    requires root != x && x != y && root != y && x != ZERO_ADDRESS && root != ZERO_ADDRESS
    ensures
      var s := CascadeReinvite.SmallBase(root, x, y, content);
      var o := Update(s, Invited(s.accounts[x], Inviter(root, 1, 0, 10, 5)), root, 3);
      LevelOf(s.accounts[x]) == 1 && LevelOf(s.accounts[y]) == 2 && o.Done? &&
      x in o.s.accounts && y in o.s.accounts && LevelOf(o.s.accounts[x]) == 6 && LevelOf(o.s.accounts[y]) == 2
  {
    var s := CascadeReinvite.SmallBase(root, x, y, content);
    var i, ofY := Inviter(root, 1, 0, 10, 5), Inviter(x, 10, 1, 15, 0);
    var a := Invited(s.accounts[x], i);
    assert a.inviters == [i] && Chosen([i]) == Some(i) && Chosen([ofY]) == Some(ofY);
    var s1, a1, b := Releveled(s, a, i), On(a, i), s.accounts[y];
    assert Enable(s1, b, ofY, root, 1) == Done(s1.(accounts := s1.accounts[y := b]));
    assert Update(s1, b, root, 2) == Done(s1.(accounts := s1.accounts[y := b]));
    var s2 := s1.(accounts := s1.accounts[y := b]);
    assert CheckAll(s2, a1, [], root, 2) == Done(s2);
    assert a1.invited == [Invite(y, 15, 0, true)] && a1.invited[1..] == [];
    assert CheckAll(s1, a1, a1.invited, root, 2) == Done(s2);
    assert Enable(s, a, i, root, 2) == Finish(s1, a1, true, root, 2);
  }
}
