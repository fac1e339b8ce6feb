/** The records that the cascade leaves, over a forest of invites: what an update stores for the account itself,
    and which invites have taken effect at the accounts they go to. Nothing here is said in terms of the steps
    of the cascade. */
module CascadeRecords {
  import opened Basics
  import opened DeltaLogs
  import opened Accounts
  import opened Cascade
  import opened CascadeDisable
  import opened CascadeIndexes

  // ---- One record -------------------------------------------------------------------------------------

  /** The same invite, as far as an account compares inviters. */
  ghost predicate SameOffer(i: Inviter, j: Inviter) {
    i.account == j.account && i.timestamp == j.timestamp && i.lvlGap == j.lvlGap
  }

  /** An account without inviters is disabled; any other is enabled, under the oldest of them, and has no
      content from before that invite. */
  ghost predicate UpToDate(r: Account) {
    if r.inviters == [] then !r.enabled && r.activeInviter == NO_INVITER
    else
      r.enabled && r.activeInviter.timestamp > 0 &&
      (exists i :: StrictlyOldest(r.inviters, i) && SameOffer(r.activeInviter, i)) &&
      (r.content.Some? ==> r.timestamp >= r.activeInviter.timestamp)
  }

  ghost predicate SameInvites(r: seq<Invite>, a: seq<Invite>) {
    |r| == |a| && forall j :: 0 <= j < |a| ==>
      r[j].account == a[j].account && r[j].timestamp == a[j].timestamp && r[j].lvlGap == a[j].lvlGap
  }

  /** The account was disabled and comes back with content that is newer than its oldest invite `i`. */
  ghost predicate ComesBack(a: Account, i: Inviter) {
    !a.enabled && a.content.Some? && a.timestamp > i.timestamp
  }

  /** The content is no newer than the invite `i`: older than it, or as old when the account was disabled. */
  ghost predicate Outdated(a: Account, i: Inviter) {
    a.content.Some? && if a.enabled then i.timestamp > a.timestamp else i.timestamp >= a.timestamp
  }

  /** The record `r` of an account whose copy was `a` and whose oldest inviter is `i`. */
  ghost predicate Taken(r: Account, a: Account, i: Inviter) {
    r.address == a.address && r.enabled && r.inviters == a.inviters && SameInvites(r.invited, a.invited) &&
    (if SameOffer(i, a.activeInviter) then r.activeInviter == a.activeInviter else r.activeInviter == i) &&
    (if Outdated(a, i) then r.content == None && r.timestamp == 0
     else r.content == a.content && r.timestamp == a.timestamp) &&
    forall j :: 0 <= j < |a.invited| ==>
      r.invited[j].active == if ComesBack(a, i) then a.invited[j].timestamp > i.timestamp else a.invited[j].active
  }

  lemma FinishSaves(s: State, a: Account, changed: bool, root: Address, fuel: nat)
    requires Finish(s, a, changed, root, fuel).Done?
    ensures Get(Finish(s, a, changed, root, fuel).s.accounts, a.address) == Some(a)
    ensures a.address != root && a.enabled ==> a.activeInviter.timestamp > 0
  {
    hide CheckAll;
  }

  lemma EnableSaves(s: State, a: Account, inviter: Inviter, root: Address, fuel: nat)
    requires Enable(s, a, inviter, root, fuel).Done?
    ensures
      var o := Enable(s, a, inviter, root, fuel);
      a.address in o.s.accounts && Taken(o.s.accounts[a.address], a, inviter) &&
      (a.address != root ==> o.s.accounts[a.address].activeInviter.timestamp > 0)
  {
    hide Finish, UpdateEach, Notified, Releveled;
    var changed, s1, a1 := !SameInviter(inviter, a.activeInviter), Releveled(s, a, inviter), On(a, inviter);
    if a.content.Some? && !a.enabled && a.timestamp > inviter.timestamp {
      var updated := UpdateEach(s1, Notified(s1, a1, a.invited), root, fuel);
      FinishSaves(Entered(updated.s, a1), a1.(invited := Refreshed(a1, a.invited)), changed, root, fuel);
    } else if a.content.Some? && (!a.enabled || inviter.timestamp > a.timestamp) {
      FinishSaves(if a.enabled then Withdrawn(s1, a1) else s1, WithoutContent(a1), changed, root, fuel);
    } else {
      FinishSaves(s1, a1, changed, root, fuel);
    }
  }

  /** What RecurseUpdateStatus stores for the account itself. */
  lemma UpdateSaves(s: State, a: Account, root: Address, fuel: nat)
    requires Update(s, a, root, fuel).Done?
    ensures
      var o := Update(s, a, root, fuel);
      a.address in o.s.accounts &&
      var r := o.s.accounts[a.address];
      if a.address == root then r == a
      else if a.inviters == [] then r == a.(enabled := false, activeInviter := NO_INVITER)
      else exists i :: StrictlyOldest(a.inviters, i) && Taken(r, a, i) && r.activeInviter.timestamp > 0
  {
    hide Enable, CheckAll, RemoveFrom;
    if a.address != root && a.inviters != [] {
      var i := Chosen(a.inviters).value;
      ChosenIsOldest(a.inviters, i);
      EnableSaves(s, a, i, root, fuel - 1);
    }
  }

  /** Whatever the copy, its record is up to date afterwards. */
  lemma UpdateIsUpToDate(s: State, a: Account, root: Address, fuel: nat)
    requires Update(s, a, root, fuel).Done? && a.address != root
    ensures
      var o := Update(s, a, root, fuel);
      a.address in o.s.accounts && UpToDate(o.s.accounts[a.address]) &&
      o.s.accounts[a.address].address == a.address && o.s.accounts[a.address].inviters == a.inviters
  {
    hide Update, Chosen;
    UpdateSaves(s, a, root, fuel);
    var r := Update(s, a, root, fuel).s.accounts[a.address];
    if a.inviters != [] {
      var i :| StrictlyOldest(a.inviters, i) && Taken(r, a, i) && r.activeInviter.timestamp > 0;
      assert SameOffer(r.activeInviter, i);
    }
  }

  // ---- What happens to an invited account ---------------------------------------------------------------

  function EntryAt(s: State, c: Address, x: Address): Option<Inviter> {
    if c in s.accounts then EntryOf(s.accounts[c].inviters, x) else None
  }

  /** What a cascade at `x` can mean for an account that `x` invites: it gets or keeps `x` as inviter, told about
      the invite; it is looked at again; it loses `x` as inviter; or nothing below it changes. */
  datatype Effect = Joins(active: Inviter, invite: Invite) | Rechecked | Leaves | Spared

  /** `c` has a record, and only its inviter `x` may be another one than before. */
  ghost predicate Recorded(s: State, s': State, x: Address, c: Address, root: Address) {
    c in s'.accounts && (c != root ==> UpToDate(s'.accounts[c])) &&
    forall y {:trigger EntryAt(s', c, y)} :: y != x ==> EntryAt(s', c, y) == EntryAt(s, c, y)
  }

  ghost predicate Happens(f: Shape, s: State, s': State, x: Address, c: Address, e: Effect, root: Address) {
    match e
    case Joins(active, i) =>
      Recorded(s, s', x, c, root) &&
      Tells(EntryAt(s', c, x), Inviter(x, active.timestamp, AssignedLevel(active), i.timestamp, i.lvlGap),
            EntryAt(s, c, x))
    case Rechecked =>
      Recorded(s, s', x, c, root) && c in s.accounts && s.accounts[c].enabled &&
      s'.accounts[c].inviters == s.accounts[c].inviters
    case Leaves =>
      Recorded(s, s', x, c, root) && c in s.accounts && s.accounts[c].enabled && EntryAt(s', c, x) == None
    case Spared => SparedUnder(f, s, s', c)
  }

  ghost predicate SparedUnder(f: Shape, s: State, s': State, c: Address) {
    forall u {:trigger Untouched(s, s', u)} :: f.Under(c, u) ==> Untouched(s, s', u)
  }

  /** Later changes elsewhere do not undo an effect, nor do earlier ones. */
  lemma HappensStill(f: Shape, s: State, s1: State, s2: State, x: Address, c: Address, e: Effect, root: Address)
    requires Happens(f, s, s1, x, c, e, root) && SparedUnder(f, s1, s2, c)
    ensures Happens(f, s, s2, x, c, e, root)
  {
    assert Untouched(s1, s2, c) by { assert f.Under(c, c); }
    SameRecord(s1, s2, c);
    if e.Spared? {
      forall u {:trigger Untouched(s, s2, u)} | f.Under(c, u) ensures Untouched(s, s2, u) {
        assert Untouched(s, s1, u) && Untouched(s1, s2, u);
      }
    } else {
      forall y {:trigger EntryAt(s2, c, y)} | y != x ensures EntryAt(s2, c, y) == EntryAt(s, c, y) {
        assert EntryAt(s1, c, y) == EntryAt(s, c, y);
      }
    }
  }

  lemma HappensLater(f: Shape, s: State, s1: State, s2: State, x: Address, c: Address, e: Effect, root: Address)
    requires SparedUnder(f, s, s1, c) && Happens(f, s1, s2, x, c, e, root)
    ensures Happens(f, s, s2, x, c, e, root)
  {
    assert Untouched(s, s1, c) by { assert f.Under(c, c); }
    SameRecord(s, s1, c);
    if e.Spared? {
      forall u {:trigger Untouched(s, s2, u)} | f.Under(c, u) ensures Untouched(s, s2, u) {
        assert Untouched(s, s1, u) && Untouched(s1, s2, u);
      }
    } else {
      forall y {:trigger EntryAt(s2, c, y)} | y != x ensures EntryAt(s2, c, y) == EntryAt(s, c, y) {
        assert EntryAt(s2, c, y) == EntryAt(s1, c, y);
      }
    }
  }

  lemma SameRecord(s: State, s': State, c: Address)
    requires Untouched(s, s', c)
    ensures c in s'.accounts <==> c in s.accounts
    ensures c in s.accounts ==> s'.accounts[c] == s.accounts[c]
    ensures forall y :: EntryAt(s', c, y) == EntryAt(s, c, y)
  {
    assert Get(s'.accounts, c) == Get(s.accounts, c);
  }

  // ---- Frames of the loops ------------------------------------------------------------------------------

  function Addresses(invites: seq<Invite>): seq<Address> {
    seq(|invites|, j requires 0 <= j < |invites| => invites[j].account)
  }

  /** Nothing changes except under these accounts. */
  ghost predicate OnlyUnderThese(f: Shape, s: State, s': State, cs: seq<Address>) {
    forall u {:trigger Untouched(s, s', u)} ::
      (forall j :: 0 <= j < |cs| ==> !f.Under(cs[j], u)) ==> Untouched(s, s', u)
  }

  lemma OneMoreUnder(f: Shape, s: State, s1: State, s2: State, c: Address, cs: seq<Address>)
    requires f.OnlyUnder(s, s1, c) && OnlyUnderThese(f, s1, s2, cs)
    ensures OnlyUnderThese(f, s, s2, [c] + cs)
  {
    var all := [c] + cs;
    forall u {:trigger Untouched(s, s2, u)} | forall j :: 0 <= j < |all| ==> !f.Under(all[j], u)
      ensures Untouched(s, s2, u)
    {
      assert !f.Under(all[0], u);
      forall j | 0 <= j < |cs| ensures !f.Under(cs[j], u) { assert all[j + 1] == cs[j]; }
      assert Untouched(s, s1, u) && Untouched(s1, s2, u);
    }
  }

  lemma {:induction false} Apart(f: Shape, x: Address, c: Address, d: Address, u: Address)
    requires f.Child(c, x) && f.Child(d, x) && c != d && f.Under(c, u)
    ensures !f.Under(d, u)
    decreases f.rank(c) - f.rank(u)
  {
    if u == c {
      Siblings(f, x, d, c);
    } else if f.Under(d, u) {
      if u == d {
        Siblings(f, x, c, d);
      } else {
        Apart(f, x, c, d, f.up(u));
      }
    }
  }

  lemma SparedBy(f: Shape, s: State, s': State, x: Address, c: Address, cs: seq<Address>)
    requires OnlyUnderThese(f, s, s', cs) && f.Child(c, x)
    requires forall j :: 0 <= j < |cs| ==> f.Child(cs[j], x) && cs[j] != c
    ensures SparedUnder(f, s, s', c)
  {
    forall u {:trigger Untouched(s, s', u)} | f.Under(c, u) ensures Untouched(s, s', u) {
      forall j | 0 <= j < |cs| ensures !f.Under(cs[j], u) { Apart(f, x, c, cs[j], u); }
    }
  }

  lemma SparedByOne(f: Shape, s: State, s': State, x: Address, c: Address, d: Address)
    requires f.OnlyUnder(s, s', d) && f.Child(c, x) && f.Child(d, x) && c != d
    ensures SparedUnder(f, s, s', c)
  {
    forall u {:trigger Untouched(s, s', u)} | f.Under(c, u) ensures Untouched(s, s', u) { Apart(f, x, c, d, u); }
  }

  lemma SparedAt(f: Shape, s: State, s': State, x: Address, c: Address)
    requires OnlyAt(s, s', x) && f.Child(c, x)
    ensures SparedUnder(f, s, s', c)
  {
    forall u {:trigger Untouched(s, s', u)} | f.Under(c, u) ensures Untouched(s, s', u) { UnderIsBelow(f, c, u); }
  }

  // ---- One step of each loop ------------------------------------------------------------------------------

  /** The record of a copy that has been updated: the root's is the copy itself; any other is disabled without
      inviters, and under the oldest of them otherwise. */
  ghost predicate StoredFrom(s: State, copy: Account, root: Address) {
    copy.address in s.accounts && s.accounts[copy.address].inviters == copy.inviters &&
    var r := s.accounts[copy.address];
    if copy.address == root then r == copy
    else
      UpToDate(r) && (copy.inviters == [] ==> r == copy.(enabled := false, activeInviter := NO_INVITER)) &&
      (copy.inviters != [] ==> exists i :: StrictlyOldest(copy.inviters, i) && Taken(r, copy, i))
  }

  /** An update of a copy of `c` as it is stored, with other inviters. */
  lemma ChildUpdated(f: Shape, s: State, x: Address, copy: Account, root: Address, fuel: nat)
    requires f.OrderlyBelow(s, x) && f.Child(copy.address, x) && FreshCopy(f, s, copy)
    requires Update(s, copy, root, fuel).Done?
    ensures
      var s1, c := Update(s, copy, root, fuel).s, copy.address;
      f.OrderlyBelow(s1, x) && f.OnlyUnder(s, s1, c) && StoredFrom(s1, copy, root)
  {
    hide Untouched, FreshCopy, InStepAt, Update, UpToDate, Taken;
    ChildOrderly(f, s, x, copy.address);
    UpdateKeeps(f, s, copy, root, fuel);
    AfterChild(f, s, Update(s, copy, root, fuel).s, x, copy.address);
    UpdateSaves(s, copy, root, fuel);
    if copy.address != root { UpdateIsUpToDate(s, copy, root, fuel); }
  }

  /** What the invite `i` leads to when an account with this active inviter checks its invites. */
  function OnCheck(active: Inviter, i: Invite): Effect {
    if i.active then Rechecked else if i.timestamp > active.timestamp then Joins(active, i) else Spared
  }

  lemma InvitedHappens(f: Shape, s: State, s1: State, a: Account, i: Invite, root: Address)
    requires i.account in s1.accounts && (i.account != root ==> UpToDate(s1.accounts[i.account]))
    requires s1.accounts[i.account].inviters == Invited(FetchOrNew(s, i.account), InviterFor(a, i)).inviters
    ensures Happens(f, s, s1, a.address, i.account, Joins(a.activeInviter, i), root)
  {
    var c, before := i.account, FetchOrNew(s, i.account).inviters;
    hide UpToDate;
    forall y ensures EntryAt(s, c, y) == EntryOf(before, y) {}
    EntryWith(before, InviterFor(a, i), a.address);
    forall y {:trigger EntryAt(s1, c, y)} | y != a.address ensures EntryAt(s1, c, y) == EntryAt(s, c, y) {
      EntryWith(before, InviterFor(a, i), y);
    }
  }

  lemma CheckStep(f: Shape, s: State, a: Account, invites: seq<Invite>, root: Address, fuel: nat) returns (s1: State)
    requires f.OrderlyBelow(s, a.address) && f.Invitees(invites, a.address) && invites != []
    requires CheckAll(s, a, invites, root, fuel).Done?
    ensures CheckAll(s1, a, invites[1..], root, fuel) == CheckAll(s, a, invites, root, fuel)
    ensures f.OrderlyBelow(s1, a.address) && f.OnlyUnder(s, s1, invites[0].account)
    ensures Happens(f, s, s1, a.address, invites[0].account, OnCheck(a.activeInviter, invites[0]), root)
  {
    hide Update, FreshCopy, UpToDate, InStepAt, FetchOrNew, Tells;
    var x, i := a.address, invites[0];
    FetchedIsFresh(f, s, x, i.account, InviterFor(a, i));
    assert f.Child(i.account, x);
    s1 := s;
    NothingTouched(s);
    if i.active {
      var child := Fetch(s, i.account, false);
      ChildUpdated(f, s, x, child.value, root, fuel);
      s1 := Update(s, child.value, root, fuel).s;
    } else if Counts(a, i) {
      var copy := Invited(FetchOrNew(s, i.account), InviterFor(a, i));
      ChildUpdated(f, s, x, copy, root, fuel);
      s1 := Update(s, copy, root, fuel).s;
      InvitedHappens(f, s, s1, a, i, root);
    }
  }

  lemma NothingTouched(s: State)
    ensures forall u {:trigger Untouched(s, s, u)} :: Untouched(s, s, u)
  {}

  lemma LeaveStep(f: Shape, s: State, x: Address, invites: seq<Invite>, root: Address, fuel: nat) returns (s1: State)
    requires f.OrderlyBelow(s, x) && f.Invitees(invites, x) && invites != []
    requires RemoveFrom(s, x, invites, root, fuel).Done?
    ensures RemoveFrom(s1, x, invites[1..], root, fuel) == RemoveFrom(s, x, invites, root, fuel)
    ensures f.OrderlyBelow(s1, x) && f.OnlyUnder(s, s1, invites[0].account)
    ensures Happens(f, s, s1, x, invites[0].account, Leaves, root)
  {
    hide Update, FreshCopy, UpToDate, InStepAt;
    var c := invites[0].account;
    FetchedIsFresh(f, s, x, c, NO_INVITER);
    assert f.Child(c, x);
    var copy := Uninvited(Fetch(s, c, false).value, x);
    ChildUpdated(f, s, x, copy, root, fuel);
    s1 := Update(s, copy, root, fuel).s;
    EntryWithout(s.accounts[c].inviters, x, x);
    forall y {:trigger EntryAt(s1, c, y)} | y != x ensures EntryAt(s1, c, y) == EntryAt(s, c, y) {
      EntryWithout(s.accounts[c].inviters, x, y);
    }
  }

  // ---- The loops ------------------------------------------------------------------------------------------

  lemma AddressesCons(invites: seq<Invite>)
    requires invites != []
    ensures Addresses(invites) == [invites[0].account] + Addresses(invites[1..])
  {}

  lemma {:induction false} CheckAllFrame(f: Shape, s: State, a: Account, invites: seq<Invite>, root: Address, fuel: nat)
    requires f.OrderlyBelow(s, a.address) && f.Invitees(invites, a.address)
    requires CheckAll(s, a, invites, root, fuel).Done?
    ensures OnlyUnderThese(f, s, CheckAll(s, a, invites, root, fuel).s, Addresses(invites))
    decreases |invites|
  {
    hide Untouched, Happens;
    if invites == [] {
      NothingTouched(s);
    } else {
      var s1 := CheckStep(f, s, a, invites, root, fuel);
      assert f.Invitees(invites[1..], a.address);
      AddressesCons(invites);
      hide CheckAll, Addresses;
      CheckAllFrame(f, s1, a, invites[1..], root, fuel);
      OneMoreUnder(f, s, s1, CheckAll(s, a, invites, root, fuel).s, invites[0].account, Addresses(invites[1..]));
    }
  }

  /** Every invite has its effect at the end of CheckAllInvited. */
  lemma {:induction false} CheckAllHappens(f: Shape, s: State, a: Account, invites: seq<Invite>, root: Address,
                                           fuel: nat, j: nat)
    requires f.OrderlyBelow(s, a.address) && f.Invitees(invites, a.address) && j < |invites|
    requires CheckAll(s, a, invites, root, fuel).Done?
    ensures Happens(f, s, CheckAll(s, a, invites, root, fuel).s, a.address, invites[j].account,
                    OnCheck(a.activeInviter, invites[j]), root)
    decreases |invites|
  {
    hide Untouched, Happens, CheckAll;
    var x, c, rest := a.address, invites[j].account, invites[1..];
    var s1 := CheckStep(f, s, a, invites, root, fuel);
    var s2 := CheckAll(s, a, invites, root, fuel).s;
    assert f.Invitees(rest, x);
    if j == 0 {
      CheckAllFrame(f, s1, a, rest, root, fuel);
      SparedBy(f, s1, s2, x, c, Addresses(rest));
      HappensStill(f, s, s1, s2, x, c, OnCheck(a.activeInviter, invites[j]), root);
    } else {
      CheckAllHappens(f, s1, a, rest, root, fuel, j - 1);
      SparedByOne(f, s, s1, x, c, invites[0].account);
      HappensLater(f, s, s1, s2, x, c, OnCheck(a.activeInviter, invites[j]), root);
    }
  }

  lemma {:induction false} RemoveFromFrame(f: Shape, s: State, x: Address, invites: seq<Invite>, root: Address,
                                           fuel: nat)
    requires f.OrderlyBelow(s, x) && f.Invitees(invites, x)
    requires RemoveFrom(s, x, invites, root, fuel).Done?
    ensures OnlyUnderThese(f, s, RemoveFrom(s, x, invites, root, fuel).s, Addresses(invites))
    decreases |invites|
  {
    hide Untouched, Happens;
    if invites == [] {
      NothingTouched(s);
    } else {
      var s1 := LeaveStep(f, s, x, invites, root, fuel);
      assert f.Invitees(invites[1..], x);
      AddressesCons(invites);
      hide RemoveFrom, Addresses;
      RemoveFromFrame(f, s1, x, invites[1..], root, fuel);
      OneMoreUnder(f, s, s1, RemoveFrom(s, x, invites, root, fuel).s, invites[0].account, Addresses(invites[1..]));
    }
  }

  /** Every invited account has lost its inviter at the end of DisableAccount. */
  lemma {:induction false} RemoveFromHappens(f: Shape, s: State, x: Address, invites: seq<Invite>, root: Address,
                                             fuel: nat, j: nat)
    requires f.OrderlyBelow(s, x) && f.Invitees(invites, x) && j < |invites|
    requires RemoveFrom(s, x, invites, root, fuel).Done?
    ensures Happens(f, s, RemoveFrom(s, x, invites, root, fuel).s, x, invites[j].account, Leaves, root)
    decreases |invites|
  {
    hide Untouched, Happens, RemoveFrom;
    var c, rest := invites[j].account, invites[1..];
    var s1 := LeaveStep(f, s, x, invites, root, fuel);
    var s2 := RemoveFrom(s, x, invites, root, fuel).s;
    assert f.Invitees(rest, x);
    if j == 0 {
      RemoveFromFrame(f, s1, x, rest, root, fuel);
      SparedBy(f, s1, s2, x, c, Addresses(rest));
      HappensStill(f, s, s1, s2, x, c, Leaves, root);
    } else {
      RemoveFromHappens(f, s1, x, rest, root, fuel, j - 1);
      SparedByOne(f, s, s1, x, c, invites[0].account);
      HappensLater(f, s, s1, s2, x, c, Leaves, root);
    }
  }

  function CopyAddresses(copies: seq<Account>): seq<Address> {
    seq(|copies|, j requires 0 <= j < |copies| => copies[j].address)
  }

  lemma EachStep(f: Shape, s: State, x: Address, copies: seq<Account>, root: Address, fuel: nat) returns (s1: State)
    requires f.OrderlyBelow(s, x) && FreshCopies(f, s, x, copies) && copies != []
    requires UpdateEach(s, copies, root, fuel).Done?
    ensures UpdateEach(s1, copies[1..], root, fuel) == UpdateEach(s, copies, root, fuel)
    ensures f.OrderlyBelow(s1, x) && f.OnlyUnder(s, s1, copies[0].address) && FreshCopies(f, s1, x, copies[1..])
    ensures StoredFrom(s1, copies[0], root) && f.Child(copies[0].address, x)
  {
    hide Update, FreshCopy, UpToDate, InStepAt;
    s1 := Update(s, copies[0], root, fuel).s;
    ChildUpdated(f, s, x, copies[0], root, fuel);
    CopiesStayFresh(f, s, s1, x, copies);
  }

  lemma CopyAddressesCons(copies: seq<Account>)
    requires copies != []
    ensures CopyAddresses(copies) == [copies[0].address] + CopyAddresses(copies[1..])
  {}

  lemma {:induction false} UpdateEachFrame(f: Shape, s: State, x: Address, copies: seq<Account>, root: Address,
                                           fuel: nat)
    requires f.OrderlyBelow(s, x) && FreshCopies(f, s, x, copies)
    requires UpdateEach(s, copies, root, fuel).Done?
    ensures OnlyUnderThese(f, s, UpdateEach(s, copies, root, fuel).s, CopyAddresses(copies))
    decreases |copies|
  {
    hide Untouched, FreshCopy;
    if copies == [] {
      NothingTouched(s);
    } else {
      var s1 := EachStep(f, s, x, copies, root, fuel);
      CopyAddressesCons(copies);
      hide UpdateEach, CopyAddresses, FreshCopies;
      UpdateEachFrame(f, s1, x, copies[1..], root, fuel);
      OneMoreUnder(f, s, s1, UpdateEach(s, copies, root, fuel).s, copies[0].address, CopyAddresses(copies[1..]));
    }
  }

  /** Every copy is stored at the end of the loop, and nothing happens between its update and the end. */
  lemma {:induction false} UpdateEachStores(f: Shape, s: State, x: Address, copies: seq<Account>, root: Address,
                                            fuel: nat, j: nat)
    requires f.OrderlyBelow(s, x) && FreshCopies(f, s, x, copies) && j < |copies|
    requires UpdateEach(s, copies, root, fuel).Done?
    ensures StoredFrom(UpdateEach(s, copies, root, fuel).s, copies[j], root)
    decreases |copies|
  {
    hide Untouched, FreshCopy, UpdateEach, UpToDate;
    var rest, c := copies[1..], copies[j].address;
    var s1 := EachStep(f, s, x, copies, root, fuel);
    var s2 := UpdateEach(s, copies, root, fuel).s;
    if j == 0 {
      UpdateEachFrame(f, s1, x, rest, root, fuel);
      forall k | 0 <= k < |rest| ensures f.Child(rest[k].address, x) && rest[k].address != c {
        assert rest[k] == copies[k + 1];
      }
      SparedBy(f, s1, s2, x, c, CopyAddresses(rest));
      assert f.Under(c, c);
      assert Untouched(s1, s2, c);
      SameRecord(s1, s2, c);
    } else {
      UpdateEachStores(f, s1, x, rest, root, fuel, j - 1);
    }
  }

  // ---- Coming back ----------------------------------------------------------------------------------------

  /** The copies that an account coming back makes: one for each invite newer than its own. */
  lemma {:induction false} NotifiedHas(s: State, a: Account, invites: seq<Invite>, j: nat) returns (k: nat)
    requires j < |invites| && Counts(a, invites[j])
    ensures k < |Notified(s, a, invites)|
    ensures Notified(s, a, invites)[k] == Invited(FetchOrNew(s, invites[j].account), InviterFor(a, invites[j]))
  {
    hide FetchOrNew, Invited, InviterFor;
    if j == 0 {
      k := 0;
    } else {
      k := NotifiedHas(s, a, invites[1..], j - 1);
      if Counts(a, invites[0]) { k := k + 1; }
    }
  }

  lemma {:induction false} NotifiedSkips(s: State, a: Account, invites: seq<Invite>, c: Address, k: nat)
    requires forall j :: 0 <= j < |invites| && invites[j].account == c ==> !Counts(a, invites[j])
    requires k < |Notified(s, a, invites)|
    ensures Notified(s, a, invites)[k].address != c
  {
    if invites != [] {
      var rest := Notified(s, a, invites[1..]);
      forall j | 0 <= j < |invites[1..]| && invites[1..][j].account == c ensures !Counts(a, invites[1..][j]) {
        assert invites[1..][j] == invites[j + 1];
      }
      if Counts(a, invites[0]) {
        if k > 0 { NotifiedSkips(s, a, invites[1..], c, k - 1); }
      } else {
        assert [] + rest == rest;
        NotifiedSkips(s, a, invites[1..], c, k);
      }
    }
  }

  /** What the invite `i` leads to when the account comes back under this active inviter. */
  function OnReturn(active: Inviter, i: Invite): Effect {
    if i.timestamp > active.timestamp then Joins(active, i) else Spared
  }

  lemma ReturnHappens(f: Shape, s: State, a: Account, root: Address, fuel: nat, j: nat)
    requires f.OrderlyBelow(s, a.address) && f.Invitees(a.invited, a.address) && j < |a.invited|
    requires UpdateEach(s, Notified(s, a, a.invited), root, fuel).Done?
    ensures Happens(f, s, UpdateEach(s, Notified(s, a, a.invited), root, fuel).s, a.address, a.invited[j].account,
                    OnReturn(a.activeInviter, a.invited[j]), root)
  {
    hide Untouched, FreshCopy, UpdateEach, UpToDate, Notified, FetchOrNew, InStepAt, Recorded, Tells;
    var x, copies, i := a.address, Notified(s, a, a.invited), a.invited[j];
    var s1 := UpdateEach(s, copies, root, fuel).s;
    NotifiedAreFresh(f, s, a, a.invited);
    if Counts(a, i) {
      var k := NotifiedHas(s, a, a.invited, j);
      UpdateEachStores(f, s, x, copies, root, fuel, k);
      FetchedIsFresh(f, s, x, i.account, InviterFor(a, i));
      InvitedHappens(f, s, s1, a, i, root);
    } else {
      UpdateEachFrame(f, s, x, copies, root, fuel);
      forall k | 0 <= k < |copies| ensures f.Child(copies[k].address, x) && copies[k].address != i.account {
        NotifiedSkips(s, a, a.invited, i.account, k);
      }
      SparedBy(f, s, s1, x, i.account, CopyAddresses(copies));
    }
  }

  /** An account that joined, or was left alone, on the return stays so when the invites are checked once more. */
  lemma ThenChecked(f: Shape, s: State, s1: State, s2: State, x: Address, active: Inviter, i: Invite, root: Address)
    requires Happens(f, s, s1, x, i.account, OnReturn(active, i), root)
    requires Happens(f, s1, s2, x, i.account, OnCheck(active, i.(active := i.timestamp > active.timestamp)), root)
    ensures Happens(f, s, s2, x, i.account, OnReturn(active, i), root)
  {
    hide UpToDate, Tells;
    var c := i.account;
    if i.timestamp > active.timestamp {
      forall y ensures EntryAt(s2, c, y) == EntryAt(s1, c, y) {}
      forall y {:trigger EntryAt(s2, c, y)} | y != x ensures EntryAt(s2, c, y) == EntryAt(s, c, y) {
        assert EntryAt(s1, c, y) == EntryAt(s, c, y);
      }
    } else {
      HappensStill(f, s, s1, s2, x, c, Spared, root);
    }
  }

  // ---- The update -----------------------------------------------------------------------------------------

  lemma SaveIsAt(s: State, a: Account, root: Address)
    requires Save(s, a, root).Done?
    ensures OnlyAt(s, Save(s, a, root).s, a.address)
  {}

  lemma FinishHappens(f: Shape, s: State, a: Account, changed: bool, root: Address, fuel: nat, j: nat)
    requires f.OrderlyBelow(s, a.address) && f.Invitees(a.invited, a.address) && j < |a.invited|
    requires Finish(s, a, changed, root, fuel).Done?
    ensures Happens(f, s, Finish(s, a, changed, root, fuel).s, a.address, a.invited[j].account,
                    if changed then OnCheck(a.activeInviter, a.invited[j]) else Spared, root)
  {
    hide Untouched, CheckAll, Recorded, Tells;
    var x, c := a.address, a.invited[j].account;
    var s2 := Finish(s, a, changed, root, fuel).s;
    NothingTouched(s);
    if changed {
      var s1 := CheckAll(s, a, a.invited, root, fuel).s;
      CheckAllHappens(f, s, a, a.invited, root, fuel, j);
      SaveIsAt(s1, a, root);
      SparedAt(f, s1, s2, x, c);
      HappensStill(f, s, s1, s2, x, c, OnCheck(a.activeInviter, a.invited[j]), root);
    } else {
      SaveIsAt(s, a, root);
      SparedAt(f, s, s2, x, c);
    }
  }

  /** What the invite `i` leads to when an account with this copy and oldest inviter is updated. */
  ghost function OnUpdate(a: Account, active: Inviter, i: Invite): Effect {
    if ComesBack(a, active) then OnReturn(active, i)
    else if SameOffer(active, a.activeInviter) then Spared
    else OnCheck(active, i)
  }

  /** An account that was disabled comes back: its invites have been dealt with when it enters the indexes. */
  lemma ComingBack(f: Shape, s: State, a: Account, inviter: Inviter, root: Address, fuel: nat, j: nat)
    requires f.Orderly(s, a.address) && FreshCopy(f, s, a) && ComesBack(a, inviter) && j < |a.invited|
    requires Enable(s, a, inviter, root, fuel).Done?
    ensures Happens(f, s, Enable(s, a, inviter, root, fuel).s, a.address, a.invited[j].account,
                    OnReturn(On(a, inviter).activeInviter, a.invited[j]), root)
  {
    hide Untouched, UpdateEach, Notified, Finish, CheckAll, Recorded, Tells, InStepAt, OnReturn, OnCheck, Happens;
    var x, a1, i := a.address, On(a, inviter), a.invited[j];
    Unchanged(f, s, a);
    LevelChange(s, a, inviter);
    var changed := !SameInviter(inviter, a.activeInviter);
    var updated := UpdateEach(s, Notified(s, a1, a.invited), root, fuel);
    NotifiedAreFresh(f, s, a1, a.invited);
    UpdateEachKeeps(f, s, x, Notified(s, a1, a.invited), root, fuel);
    ReturnHappens(f, s, a1, root, fuel, j);
    var s2, a2 := Entered(updated.s, a1), a1.(invited := Refreshed(a1, a.invited));
    var s3 := Finish(s2, a2, changed, root, fuel).s;
    EnteredKeeps(f, s, updated, a1, a2.invited);
    EnteredAt(updated.s, a1);
    SparedAt(f, updated.s, s2, x, i.account);
    HappensStill(f, s, updated.s, s2, x, i.account, OnReturn(a1.activeInviter, i), root);
    FinishHappens(f, s2, a2, changed, root, fuel, j);
    assert a2.invited[j] == i.(active := i.timestamp > a1.activeInviter.timestamp);
    if changed {
      ThenChecked(f, s, s2, s3, x, a1.activeInviter, i, root);
    } else {
      SparedMeans(f, s2, s3, x, i.account, root);
      HappensStill(f, s, s2, s3, x, i.account, OnReturn(a1.activeInviter, i), root);
    }
  }

  lemma SparedMeans(f: Shape, s: State, s': State, x: Address, c: Address, root: Address)
    ensures Happens(f, s, s', x, c, Spared, root) <==> SparedUnder(f, s, s', c)
  {}

  lemma EnteredAt(s: State, a: Account)
    ensures OnlyAt(s, Entered(s, a), a.address)
  {
    forall c {:trigger Untouched(s, Entered(s, a), c)} | c != a.address ensures Untouched(s, Entered(s, a), c) {
      LogAppend(s.history, a.address, false, c);
    }
  }

  lemma WithdrawnAt(s: State, a: Account)
    ensures OnlyAt(s, Withdrawn(s, a), a.address)
  {
    forall c {:trigger Untouched(s, Withdrawn(s, a), c)} | c != a.address ensures Untouched(s, Withdrawn(s, a), c) {
      LogAppend(s.history, a.address, true, c);
    }
  }

  lemma StayingOn(f: Shape, s: State, a: Account, inviter: Inviter, root: Address, fuel: nat, j: nat)
    requires f.Orderly(s, a.address) && FreshCopy(f, s, a) && !ComesBack(a, inviter) && j < |a.invited|
    requires Enable(s, a, inviter, root, fuel).Done?
    ensures Happens(f, s, Enable(s, a, inviter, root, fuel).s, a.address, a.invited[j].account,
                    if SameInviter(inviter, a.activeInviter) then Spared else OnCheck(inviter, a.invited[j]), root)
  {
    hide Untouched, UpdateEach, Notified, Finish, Recorded, Tells, InStepAt, Happens;
    var x, a1, c := a.address, On(a, inviter), a.invited[j].account;
    Unchanged(f, s, a);
    LevelChange(s, a, inviter);
    var changed := !SameInviter(inviter, a.activeInviter);
    var drops := a.content.Some? && (!a.enabled || inviter.timestamp > a.timestamp);
    var s1 := if drops && a.enabled then Withdrawn(s, a1) else s;
    var a2 := if drops then WithoutContent(a1) else a1;
    NothingTouched(s);
    WithdrawnAt(s, a1);
    if drops { DroppedKeeps(f, s, a, a1); }
    FinishHappens(f, s1, a2, changed, root, fuel, j);
    SparedAt(f, s, s1, x, c);
    HappensLater(f, s, s1, Finish(s1, a2, changed, root, fuel).s, x, c,
                 if changed then OnCheck(a1.activeInviter, a.invited[j]) else Spared, root);
  }

  /** What becomes of the j-th invite when a copy of an account is updated, told by its record afterwards: the
      root checks its invites; an account without inviters is taken away from all of them; any other one deals
      with them if it comes back or its active inviter has changed. */
  ghost function Expected(a: Account, r: Account, root: Address, j: nat): Effect
    requires j < |a.invited|
  {
    if a.address == root then OnCheck(a.activeInviter, a.invited[j])
    else if a.inviters == [] then Leaves
    else OnUpdate(a, r.activeInviter, a.invited[j])
  }

  lemma InvitesTakeEffect(f: Shape, s: State, a: Account, root: Address, fuel: nat, j: nat)
    requires f.Orderly(s, a.address) && FreshCopy(f, s, a) && j < |a.invited|
    requires Update(s, a, root, fuel).Done?
    ensures
      var o := Update(s, a, root, fuel);
      a.address in o.s.accounts &&
      Happens(f, s, o.s, a.address, a.invited[j].account, Expected(a, o.s.accounts[a.address], root, j), root)
  {
    hide Untouched, Enable, CheckAll, RemoveFrom, Recorded, Tells, InStepAt, Happens, Chosen;
    var x, c := a.address, a.invited[j].account;
    UpdateSaves(s, a, root, fuel);
    Unchanged(f, s, a);
    var s2 := Update(s, a, root, fuel).s;
    if x == root {
      var s1 := CheckAll(s, a, a.invited, root, fuel - 1).s;
      CheckAllHappens(f, s, a, a.invited, root, fuel - 1, j);
      SaveIsAt(s1, a, root);
      SparedAt(f, s1, s2, x, c);
      HappensStill(f, s, s1, s2, x, c, OnCheck(a.activeInviter, a.invited[j]), root);
    } else if a.inviters == [] {
      TakenAway(f, s, a, root, fuel, j);
    } else {
      var i := Chosen(a.inviters).value;
      EnableSaves(s, a, i, root, fuel - 1);
      if ComesBack(a, i) {
        ComingBack(f, s, a, i, root, fuel - 1, j);
      } else {
        StayingOn(f, s, a, i, root, fuel - 1, j);
      }
    }
  }

  lemma TakenAway(f: Shape, s: State, a: Account, root: Address, fuel: nat, j: nat)
    requires f.Orderly(s, a.address) && FreshCopy(f, s, a) && j < |a.invited|
    requires a.address != root && a.inviters == [] && Update(s, a, root, fuel).Done?
    ensures Happens(f, s, Update(s, a, root, fuel).s, a.address, a.invited[j].account, Leaves, root)
  {
    hide Untouched, Enable, CheckAll, RemoveFrom, Recorded, InStepAt, Happens;
    var x, c, s1 := a.address, a.invited[j].account, Disabling(s, a);
    var s2, s3 := RemoveFrom(s1, x, a.invited, root, fuel - 1).s, Update(s, a, root, fuel).s;
    NothingTouched(s);
    WithdrawnAt(s, a);
    DisablingKeeps(f, s, a);
    RemoveFromHappens(f, s1, x, a.invited, root, fuel - 1, j);
    SparedAt(f, s, s1, x, c);
    HappensLater(f, s, s1, s2, x, c, Leaves, root);
    SaveIsAt(s2, Off(a), root);
    SparedAt(f, s2, s3, x, c);
    HappensStill(f, s, s2, s3, x, c, Leaves, root);
  }

  /** In particular: when the update changes the active inviter, an inactive invite takes effect exactly if it is
      newer than that one; the invited account is then there, enabled, and lists `a` with the invite's time and
      gap. The invites of the root are judged by its own active inviter. */
  lemma InactiveInvites(f: Shape, s: State, a: Account, root: Address, fuel: nat, j: nat)
    requires f.Orderly(s, a.address) && FreshCopy(f, s, a) && j < |a.invited| && !a.invited[j].active
    requires Update(s, a, root, fuel).Done? && (a.address != root ==> a.inviters != [])
    ensures
      var o, i := Update(s, a, root, fuel), a.invited[j];
      a.address in o.s.accounts &&
      var active := o.s.accounts[a.address].activeInviter;
      a.address == root || !SameOffer(active, a.activeInviter) ==>
        if i.timestamp > active.timestamp
        then
          i.account in o.s.accounts && (i.account != root ==> o.s.accounts[i.account].enabled) &&
          Tells(EntryAt(o.s, i.account, a.address),
                Inviter(a.address, active.timestamp, AssignedLevel(active), i.timestamp, i.lvlGap),
                EntryAt(s, i.account, a.address))
        else SparedUnder(f, s, o.s, i.account)
  {
    hide Update, Chosen, Untouched, InStepAt;
    InvitesTakeEffect(f, s, a, root, fuel, j);
    UpdateSaves(s, a, root, fuel);
  }

  // ---- What is logged -------------------------------------------------------------------------------------

  /** What an update with this copy logs about the account itself, under the oldest inviter `i`. */
  ghost function Logged(a: Account, i: Inviter, root: Address): seq<bool> {
    if a.address == root then []
    else if a.inviters == [] then if a.content.Some? then [true] else []
    else if ComesBack(a, i) then [false]
    else if a.enabled && Outdated(a, i) then [true]
    else []
  }

  lemma FinishLogs(f: Shape, s: State, a: Account, changed: bool, root: Address, fuel: nat)
    requires f.OrderlyBelow(s, a.address) && f.Invitees(a.invited, a.address)
    requires Finish(s, a, changed, root, fuel).Done?
    ensures Flags(Finish(s, a, changed, root, fuel).s.history, a.address) == Flags(s.history, a.address)
  {
    hide CheckAll, Flags, InStepAt;
    if changed {
      CheckAllKeeps(f, s, a, a.invited, root, fuel);
      assert Untouched(s, CheckAll(s, a, a.invited, root, fuel).s, a.address);
    }
  }

  lemma EnableLogs(f: Shape, s: State, a: Account, inviter: Inviter, root: Address, fuel: nat)
    requires f.Orderly(s, a.address) && FreshCopy(f, s, a) && a.address != root && a.inviters != []
    requires Enable(s, a, inviter, root, fuel).Done?
    ensures Flags(Enable(s, a, inviter, root, fuel).s.history, a.address) ==
            Flags(s.history, a.address) + Logged(a, inviter, root)
  {
    hide Untouched, UpdateEach, Notified, Finish, InStepAt, Flags, LogShows;
    var x, a1 := a.address, On(a, inviter);
    Unchanged(f, s, a);
    LevelChange(s, a, inviter);
    var changed := !SameInviter(inviter, a.activeInviter);
    if ComesBack(a, inviter) {
      var copies := Notified(s, a1, a.invited);
      var updated := UpdateEach(s, copies, root, fuel);
      NotifiedAreFresh(f, s, a1, a.invited);
      UpdateEachKeeps(f, s, x, copies, root, fuel);
      SameFlags(f, s, updated.s, x);
      var a2 := a1.(invited := Refreshed(a1, a.invited));
      EnteredKeeps(f, s, updated, a1, a2.invited);
      LogAppend(updated.s.history, x, false, x);
      FinishLogs(f, Entered(updated.s, a1), a2, changed, root, fuel);
    } else if a.content.Some? && (!a.enabled || inviter.timestamp > a.timestamp) {
      DroppedKeeps(f, s, a, a1);
      LogAppend(s.history, x, true, x);
      FinishLogs(f, if a.enabled then Withdrawn(s, a1) else s, WithoutContent(a1), changed, root, fuel);
    } else {
      FinishLogs(f, s, a1, changed, root, fuel);
    }
  }

  lemma SameFlags(f: Shape, s: State, s': State, x: Address)
    requires f.OnlyStrictlyUnder(s, s', x)
    ensures Flags(s'.history, x) == Flags(s.history, x)
  {
    hide Flags, LogShows;
    assert Untouched(s, s', x);
  }

  /** Over a forest an update logs about the account exactly what changes: a removal when it is disabled with
      content or loses outdated content, its return, and nothing otherwise. */
  lemma UpdateLogs(f: Shape, s: State, a: Account, root: Address, fuel: nat)
    requires f.Orderly(s, a.address) && FreshCopy(f, s, a) && Update(s, a, root, fuel).Done?
    ensures
      var o := Update(s, a, root, fuel);
      a.address in o.s.accounts &&
      Flags(o.s.history, a.address) ==
      Flags(s.history, a.address) + Logged(a, o.s.accounts[a.address].activeInviter, root)
  {
    hide Untouched, Enable, CheckAll, RemoveFrom, InStepAt, Chosen, Flags, LogShows;
    var x := a.address;
    UpdateSaves(s, a, root, fuel);
    Unchanged(f, s, a);
    if x == root {
      CheckAllKeeps(f, s, a, a.invited, root, fuel - 1);
      SameFlags(f, s, CheckAll(s, a, a.invited, root, fuel - 1).s, x);
    } else if a.inviters == [] {
      var s1 := Disabling(s, a);
      DisablingKeeps(f, s, a);
      LogAppend(s.history, x, true, x);
      RemoveFromKeeps(f, s1, x, a.invited, root, fuel - 1);
      SameFlags(f, s1, RemoveFrom(s1, x, a.invited, root, fuel - 1).s, x);
    } else {
      EnableSaves(s, a, Chosen(a.inviters).value, root, fuel - 1);
      EnableLogs(f, s, a, Chosen(a.inviters).value, root, fuel - 1);
    }
  }
}
