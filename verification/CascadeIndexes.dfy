/** The account bucket, the merklehead and the delta log stay in step through every branch of the cascade
    over a forest of invites: disabling, re-enabling, a level change and dropped content. No assumption is
    made about timestamps, levels or which invites are marked active. */
module CascadeIndexes {
  import opened Basics
  import opened DeltaLogs
  import opened Accounts
  import opened Cascade
  import opened CascadeDisable
  import opened Feeds

  // ---- The forest -------------------------------------------------------------------------------------

  /** The account that may list an address among its invites, and heights that drop along invites. */
  datatype Shape = Shape(up: Address -> Address, rank: Address -> nat) {
    ghost predicate Child(c: Address, x: Address) {
      up(c) == x && rank(c) < rank(x)
    }

    /** `u` is `x`, or somewhere below it. */
    ghost predicate Under(x: Address, u: Address)
      decreases rank(x) - rank(u)
    {
      u == x || (rank(u) < rank(up(u)) <= rank(x) && Under(x, up(u)))
    }

    /** The invites of `x` go to different children. */
    ghost predicate Invitees(invites: seq<Invite>, x: Address) {
      (forall j :: 0 <= j < |invites| ==> Child(invites[j].account, x)) &&
      forall i, j :: 0 <= i < j < |invites| ==> invites[i].account != invites[j].account
    }

    ghost predicate Fits(s: State, c: Address) {
      InStepAt(s, c) && (c in s.accounts ==> Invitees(s.accounts[c].invited, c))
    }

    /** Everything under `x`, or everything strictly under it, is in order. */
    ghost predicate Orderly(s: State, x: Address) {
      forall c {:trigger Fits(s, c)} :: Under(x, c) ==> Fits(s, c)
    }

    ghost predicate OrderlyBelow(s: State, x: Address) {
      forall c {:trigger Fits(s, c)} :: Under(x, c) && c != x ==> Fits(s, c)
    }

    ghost predicate OnlyUnder(s: State, s': State, x: Address) {
      forall c {:trigger Untouched(s, s', c)} :: !Under(x, c) ==> Untouched(s, s', c)
    }

    ghost predicate OnlyStrictlyUnder(s: State, s': State, x: Address) {
      forall c {:trigger Untouched(s, s', c)} :: !Under(x, c) || c == x ==> Untouched(s, s', c)
    }
  }

  lemma {:induction false} UnderChild(f: Shape, x: Address, c: Address, u: Address)
    requires f.Child(c, x) && f.Under(c, u)
    ensures f.Under(x, u) && u != x
    decreases f.rank(c) - f.rank(u)
  {
    if u != c { UnderChild(f, x, c, f.up(u)); }
  }

  lemma {:induction false} UnderIsBelow(f: Shape, x: Address, u: Address)
    requires f.Under(x, u)
    ensures f.rank(u) <= f.rank(x)
    decreases f.rank(x) - f.rank(u)
  {
    if u != x { UnderIsBelow(f, x, f.up(u)); }
  }

  /** Siblings are not under each other. */
  lemma Siblings(f: Shape, x: Address, c: Address, d: Address)
    requires f.Child(c, x) && f.Child(d, x) && c != d
    ensures !f.Under(c, d)
  {
    if f.Under(c, d) { UnderIsBelow(f, c, x); }
  }

  // ---- Copies -----------------------------------------------------------------------------------------

  /** A copy of an account as it was last fetched or created; only its inviters may have been changed. */
  ghost predicate FreshCopy(f: Shape, s: State, a: Account) {
    f.Invitees(a.invited, a.address) &&
    if a.address in s.accounts then
      var r := s.accounts[a.address];
      a.content == r.content && a.timestamp == r.timestamp && a.enabled == r.enabled && a.invited == r.invited
    else a.content == None && a.invited == []
  }

  ghost predicate FreshCopies(f: Shape, s: State, x: Address, copies: seq<Account>) {
    (forall j :: 0 <= j < |copies| ==> FreshCopy(f, s, copies[j]) && f.Child(copies[j].address, x)) &&
    forall i, j :: 0 <= i < j < |copies| ==> copies[i].address != copies[j].address
  }

  // ---- Frames -----------------------------------------------------------------------------------------

  lemma FitsSame(f: Shape, s: State, s': State, c: Address)
    requires Untouched(s, s', c) && f.Fits(s, c)
    ensures f.Fits(s', c)
  {
    assert Get(s'.accounts, c) == Get(s.accounts, c);
  }

  lemma ChildOrderly(f: Shape, s: State, x: Address, c: Address)
    requires f.OrderlyBelow(s, x) && f.Child(c, x)
    ensures f.Orderly(s, c)
  {
    forall u {:trigger f.Fits(s, u)} | f.Under(c, u) ensures f.Fits(s, u) { UnderChild(f, x, c, u); }
  }

  /** One child of `x` has been dealt with. */
  lemma AfterChild(f: Shape, s: State, s1: State, x: Address, c: Address)
    requires f.OrderlyBelow(s, x) && f.Child(c, x) && f.Orderly(s1, c) && f.OnlyUnder(s, s1, c)
    ensures f.OrderlyBelow(s1, x) && f.OnlyStrictlyUnder(s, s1, x)
  {
    forall u {:trigger f.Fits(s1, u)} | f.Under(x, u) && u != x ensures f.Fits(s1, u) {
      if !f.Under(c, u) {
        assert Untouched(s, s1, u) && f.Fits(s, u);
        FitsSame(f, s, s1, u);
      }
    }
    forall u {:trigger Untouched(s, s1, u)} | !f.Under(x, u) || u == x ensures Untouched(s, s1, u) {
      if f.Under(c, u) { UnderChild(f, x, c, u); }
    }
  }

  lemma Onward(f: Shape, s: State, s1: State, s2: State, x: Address)
    requires f.OnlyStrictlyUnder(s, s1, x) && f.OnlyStrictlyUnder(s1, s2, x)
    ensures f.OnlyStrictlyUnder(s, s2, x)
  {
    forall u {:trigger Untouched(s, s2, u)} | !f.Under(x, u) || u == x ensures Untouched(s, s2, u) {
      assert Untouched(s, s1, u) && Untouched(s1, s2, u);
    }
  }

  lemma CopiesStayFresh(f: Shape, s: State, s1: State, x: Address, copies: seq<Account>)
    requires copies != [] && FreshCopies(f, s, x, copies) && f.OnlyUnder(s, s1, copies[0].address)
    ensures FreshCopies(f, s1, x, copies[1..])
  {
    forall j | 0 <= j < |copies[1..]| ensures FreshCopy(f, s1, copies[1..][j]) && f.Child(copies[1..][j].address, x) {
      var a := copies[j + 1];
      assert FreshCopy(f, s, a) && f.Child(a.address, x) && f.Child(copies[0].address, x);
      Siblings(f, x, copies[0].address, a.address);
      assert Untouched(s, s1, a.address) && Get(s1.accounts, a.address) == Get(s.accounts, a.address);
    }
  }

  // ---- The cascade ------------------------------------------------------------------------------------

  /** What a finished loop over children of `x` leaves. */
  ghost predicate BelowKept(f: Shape, s: State, o: Outcome, x: Address) {
    o.Done? ==> f.OrderlyBelow(o.s, x) && f.OnlyStrictlyUnder(s, o.s, x)
  }

  /** What a finished update of `x` leaves. */
  ghost predicate Kept(f: Shape, s: State, o: Outcome, x: Address) {
    o.Done? ==> f.Orderly(o.s, x) && f.OnlyUnder(s, o.s, x)
  }

  lemma NothingDone(f: Shape, s: State, x: Address)
    requires f.OrderlyBelow(s, x)
    ensures BelowKept(f, s, Done(s), x)
  {
  }

  lemma FetchedIsFresh(f: Shape, s: State, x: Address, c: Address, inviter: Inviter)
    requires f.OrderlyBelow(s, x) && f.Child(c, x)
    ensures Fetch(s, c, false).Some? ==>
              (Fetch(s, c, false).value.address == c && FreshCopy(f, s, Fetch(s, c, false).value) &&
               FreshCopy(f, s, Uninvited(Fetch(s, c, false).value, x)))
    ensures FetchOrNew(s, c).address == c && FreshCopy(f, s, Invited(FetchOrNew(s, c), inviter))
  {
    assert f.Under(x, c) by { assert f.Under(x, x); }
    assert f.Fits(s, c);
  }

  /** One child is updated and the rest of a loop follows. */
  lemma OneThenRest(f: Shape, s: State, x: Address, c: Address, one: Outcome, rest: Outcome)
    requires f.OrderlyBelow(s, x) && f.Child(c, x) && one.Done? && Kept(f, s, one, c)
    requires f.OrderlyBelow(one.s, x) ==> BelowKept(f, one.s, rest, x)
    ensures f.OrderlyBelow(one.s, x) && BelowKept(f, s, rest, x)
  {
    AfterChild(f, s, one.s, x, c);
    if rest.Done? { Onward(f, s, one.s, rest.s, x); }
  }

  lemma {:induction false} CheckAllKeeps(f: Shape, s: State, a: Account, invites: seq<Invite>, root: Address, fuel: nat)
    requires f.OrderlyBelow(s, a.address) && f.Invitees(invites, a.address)
    ensures BelowKept(f, s, CheckAll(s, a, invites, root, fuel), a.address)
    ensures fuel >= f.rank(a.address) ==> !CheckAll(s, a, invites, root, fuel).OutOfFuel?
    decreases fuel, |invites| + 1
  {
    hide Untouched, FreshCopy, InStepAt;
    var x := a.address;
    if invites == [] {
      NothingDone(f, s, x);
    } else {
      var i := invites[0];
      FetchedIsFresh(f, s, x, i.account, InviterFor(a, i));
      assert f.Invitees(invites[1..], x);
      if !i.active && !Counts(a, i) {
        CheckAllKeeps(f, s, a, invites[1..], root, fuel);
      } else {
        var child :=
          if i.active then Fetch(s, i.account, false)
          else Some(Invited(FetchOrNew(s, i.account), InviterFor(a, i)));
        if child.Some? {
          ChildOrderly(f, s, x, i.account);
          UpdateKeeps(f, s, child.value, root, fuel);
          var one := Update(s, child.value, root, fuel);
          if one.Done? {
            AfterChild(f, s, one.s, x, i.account);
            CheckAllKeeps(f, one.s, a, invites[1..], root, fuel);
            OneThenRest(f, s, x, i.account, one, CheckAll(one.s, a, invites[1..], root, fuel));
          }
        }
      }
    }
  }

  lemma {:induction false} RemoveFromKeeps(f: Shape, s: State, x: Address, invites: seq<Invite>, root: Address,
                                           fuel: nat)
    requires f.OrderlyBelow(s, x) && f.Invitees(invites, x)
    ensures BelowKept(f, s, RemoveFrom(s, x, invites, root, fuel), x)
    ensures fuel >= f.rank(x) ==> !RemoveFrom(s, x, invites, root, fuel).OutOfFuel?
    decreases fuel, |invites| + 1
  {
    hide Untouched, FreshCopy, InStepAt;
    if invites == [] {
      NothingDone(f, s, x);
    } else {
      var c := invites[0].account;
      FetchedIsFresh(f, s, x, c, NO_INVITER);
      assert f.Invitees(invites[1..], x);
      var child := Fetch(s, c, false);
      if child.Some? {
        ChildOrderly(f, s, x, c);
        UpdateKeeps(f, s, Uninvited(child.value, x), root, fuel);
        var one := Update(s, Uninvited(child.value, x), root, fuel);
        if one.Done? {
          AfterChild(f, s, one.s, x, c);
          RemoveFromKeeps(f, one.s, x, invites[1..], root, fuel);
          OneThenRest(f, s, x, c, one, RemoveFrom(one.s, x, invites[1..], root, fuel));
        }
      }
    }
  }

  lemma {:induction false} UpdateEachKeeps(f: Shape, s: State, x: Address, copies: seq<Account>, root: Address,
                                           fuel: nat)
    requires f.OrderlyBelow(s, x) && FreshCopies(f, s, x, copies)
    ensures BelowKept(f, s, UpdateEach(s, copies, root, fuel), x)
    ensures fuel >= f.rank(x) ==> !UpdateEach(s, copies, root, fuel).OutOfFuel?
    decreases fuel, |copies| + 1
  {
    hide Untouched, FreshCopy, InStepAt;
    if copies == [] {
      NothingDone(f, s, x);
    } else {
      var a := copies[0];
      ChildOrderly(f, s, x, a.address);
      UpdateKeeps(f, s, a, root, fuel);
      var one := Update(s, a, root, fuel);
      if one.Done? {
        AfterChild(f, s, one.s, x, a.address);
        CopiesStayFresh(f, s, one.s, x, copies);
        UpdateEachKeeps(f, one.s, x, copies[1..], root, fuel);
        OneThenRest(f, s, x, a.address, one, UpdateEach(one.s, copies[1..], root, fuel));
      }
    }
  }

  /** The merklehead and the log say of `x` what the record `a` needs. */
  ghost predicate Shows(s: State, a: Account) {
    var live := a.enabled && a.content.Some?;
    (a.address in s.merkle <==> live) && (live ==> s.merkle[a.address] == a.timestamp) &&
    (LogShows(s.history, a.address) <==> live)
  }

  /** The state between the loops and the final save: only `x` itself is not finished. */
  ghost predicate Midway(f: Shape, s: State, s1: State, a: Account) {
    f.OrderlyBelow(s1, a.address) && f.OnlyUnder(s, s1, a.address) && Shows(s1, a) && f.Invitees(a.invited, a.address)
  }

  lemma SaveKeeps(f: Shape, s: State, s1: State, a: Account, root: Address)
    requires Midway(f, s, s1, a)
    ensures Kept(f, s, Save(s1, a, root), a.address)
  {
    var o := Save(s1, a, root);
    if o.Done? {
      forall c {:trigger f.Fits(o.s, c)} | f.Under(a.address, c) ensures f.Fits(o.s, c) {
        if c != a.address {
          assert Untouched(s1, o.s, c) && f.Fits(s1, c);
          FitsSame(f, s1, o.s, c);
        }
      }
      forall c {:trigger Untouched(s, o.s, c)} | !f.Under(a.address, c) ensures Untouched(s, o.s, c) {
        assert Untouched(s, s1, c) && c != a.address;
      }
    }
  }

  /** A change of the merklehead and the log at `x` only. */
  lemma MidwayAt(f: Shape, s: State, s1: State, s2: State, a: Account)
    requires f.OrderlyBelow(s1, a.address) && f.OnlyUnder(s, s1, a.address) && OnlyAt(s1, s2, a.address)
    requires Shows(s2, a) && f.Invitees(a.invited, a.address)
    ensures Midway(f, s, s2, a)
  {
    forall c {:trigger f.Fits(s2, c)} | f.Under(a.address, c) && c != a.address ensures f.Fits(s2, c) {
      assert Untouched(s1, s2, c) && f.Fits(s1, c);
      FitsSame(f, s1, s2, c);
    }
    forall c {:trigger Untouched(s, s2, c)} | !f.Under(a.address, c) ensures Untouched(s, s2, c) {
      assert Untouched(s, s1, c) && Untouched(s1, s2, c);
    }
  }

  /** A loop below `x` keeps what is said about `x`. */
  lemma MidwayBelow(f: Shape, s: State, s1: State, o: Outcome, a: Account)
    requires f.OnlyUnder(s, s1, a.address) && Shows(s1, a) && f.Invitees(a.invited, a.address)
    requires BelowKept(f, s1, o, a.address) && o.Done?
    ensures Midway(f, s, o.s, a)
  {
    assert Untouched(s1, o.s, a.address);
    forall c {:trigger Untouched(s, o.s, c)} | !f.Under(a.address, c) ensures Untouched(s, o.s, c) {
      assert Untouched(s, s1, c) && Untouched(s1, o.s, c);
    }
    assert Get(o.s.merkle, a.address) == Get(s1.merkle, a.address);
  }

  lemma {:induction false} FinishKeeps(f: Shape, s: State, s1: State, a: Account, changed: bool, root: Address,
                                       fuel: nat)
    requires Midway(f, s, s1, a)
    ensures Kept(f, s, Finish(s1, a, changed, root, fuel), a.address)
    ensures fuel >= f.rank(a.address) ==> !Finish(s1, a, changed, root, fuel).OutOfFuel?
    decreases fuel, |a.invited| + 2
  {
    if changed {
      CheckAllKeeps(f, s1, a, a.invited, root, fuel);
      var checked := CheckAll(s1, a, a.invited, root, fuel);
      if checked.Done? {
        MidwayBelow(f, s, s1, checked, a);
        SaveKeeps(f, s, checked.s, a, root);
      }
    } else {
      SaveKeeps(f, s, s1, a, root);
    }
  }

  lemma Unchanged(f: Shape, s: State, a: Account)
    requires f.Orderly(s, a.address) && FreshCopy(f, s, a)
    ensures Shows(s, a) && Midway(f, s, s, a)
  {
    assert f.Under(a.address, a.address) && f.Fits(s, a.address);
  }

  /** RecurseUpdateStatus of a fresh copy: when it finishes, every account it may have touched is in step. */
  lemma {:induction false} UpdateKeeps(f: Shape, s: State, a: Account, root: Address, fuel: nat)
    requires f.Orderly(s, a.address) && FreshCopy(f, s, a)
    ensures Kept(f, s, Update(s, a, root, fuel), a.address)
    ensures fuel > f.rank(a.address) ==> !Update(s, a, root, fuel).OutOfFuel?
    decreases fuel, 0
  {
    if fuel > 0 {
      Unchanged(f, s, a);
      if a.address == root {
        CheckAllKeeps(f, s, a, a.invited, root, fuel - 1);
        var checked := CheckAll(s, a, a.invited, root, fuel - 1);
        if checked.Done? {
          MidwayBelow(f, s, s, checked, a);
          SaveKeeps(f, s, checked.s, a, root);
        }
      } else if a.inviters == [] {
        DisablingKeeps(f, s, a);
        RemoveFromKeeps(f, Disabling(s, a), a.address, a.invited, root, fuel - 1);
        var removed := RemoveFrom(Disabling(s, a), a.address, a.invited, root, fuel - 1);
        if removed.Done? {
          MidwayBelow(f, s, Disabling(s, a), removed, Off(a));
          SaveKeeps(f, s, removed.s, Off(a), root);
        }
      } else if Chosen(a.inviters).Some? {
        EnableKeeps(f, s, a, Chosen(a.inviters).value, root, fuel - 1);
      }
    }
  }

  lemma DisablingKeeps(f: Shape, s: State, a: Account)
    requires f.Orderly(s, a.address) && FreshCopy(f, s, a)
    ensures Midway(f, s, Disabling(s, a), Off(a))
  {
    Unchanged(f, s, a);
    LogAppend(s.history, a.address, true, a.address);
    forall c {:trigger Untouched(s, Disabling(s, a), c)} | c != a.address ensures Untouched(s, Disabling(s, a), c) {
      LogAppend(s.history, a.address, true, c);
    }
    MidwayAt(f, s, s, Disabling(s, a), Off(a));
  }

  lemma {:induction false} EnableKeeps(f: Shape, s: State, a: Account, inviter: Inviter, root: Address, fuel: nat)
    requires f.Orderly(s, a.address) && FreshCopy(f, s, a)
    ensures Kept(f, s, Enable(s, a, inviter, root, fuel), a.address)
    ensures fuel >= f.rank(a.address) ==> !Enable(s, a, inviter, root, fuel).OutOfFuel?
    decreases fuel, |a.invited| + 3
  {
    Unchanged(f, s, a);
    var changed := !SameInviter(inviter, a.activeInviter);
    var s1, a1 := Releveled(s, a, inviter), On(a, inviter);
    LevelChange(s, a, inviter);
    if a.content.Some? && !a.enabled && a.timestamp > inviter.timestamp {
      var copies := Notified(s, a1, a.invited);
      NotifiedAreFresh(f, s, a1, a.invited);
      UpdateEachKeeps(f, s, a.address, copies, root, fuel);
      var updated := UpdateEach(s, copies, root, fuel);
      if updated.Done? {
        EnteredKeeps(f, s, updated, a1, Refreshed(a1, a.invited));
        FinishKeeps(f, s, Entered(updated.s, a1), a1.(invited := Refreshed(a1, a.invited)), changed, root, fuel);
      }
    } else if a.content.Some? && (!a.enabled || inviter.timestamp > a.timestamp) {
      DroppedKeeps(f, s, a, a1);
      FinishKeeps(f, s, if a.enabled then Withdrawn(s, a1) else s, WithoutContent(a1), changed, root, fuel);
    } else {
      FinishKeeps(f, s, s, a1, changed, root, fuel);
    }
  }

  lemma LevelChange(s: State, a: Account, inviter: Inviter)
    requires Shows(s, a)
    ensures Releveled(s, a, inviter) == s
  {
    if a.enabled && a.content.Some? { assert (s.merkle - {a.address})[a.address := a.timestamp] == s.merkle; }
  }

  lemma {:induction false} NotifiedAreFresh(f: Shape, s: State, a: Account, invites: seq<Invite>)
    requires f.OrderlyBelow(s, a.address) && f.Invitees(invites, a.address)
    ensures FreshCopies(f, s, a.address, Notified(s, a, invites))
  {
    hide FreshCopy;
    if invites != [] {
      var rest := Notified(s, a, invites[1..]);
      assert f.Invitees(invites[1..], a.address);
      NotifiedAreFresh(f, s, a, invites[1..]);
      FetchedIsFresh(f, s, a.address, invites[0].account, InviterFor(a, invites[0]));
      NotifiedAddresses(s, a, invites[1..], invites[0].account);
      assert [] + rest == rest;
      FreshCons(f, s, a.address, Invited(FetchOrNew(s, invites[0].account), InviterFor(a, invites[0])), rest);
    }
  }

  lemma FreshCons(f: Shape, s: State, x: Address, first: Account, rest: seq<Account>)
    requires FreshCopies(f, s, x, rest) && FreshCopy(f, s, first) && f.Child(first.address, x)
    requires forall j :: 0 <= j < |rest| ==> rest[j].address != first.address
    ensures FreshCopies(f, s, x, [first] + rest)
  {
    hide FreshCopy;
    assert forall j :: 0 < j < |[first] + rest| ==> ([first] + rest)[j] == rest[j - 1];
  }

  /** Accounts that are not invited are not notified. */
  lemma {:induction false} NotifiedAddresses(s: State, a: Account, invites: seq<Invite>, c: Address)
    requires forall j :: 0 <= j < |invites| ==> invites[j].account != c
    ensures forall j :: 0 <= j < |Notified(s, a, invites)| ==> Notified(s, a, invites)[j].address != c
  {
    if invites != [] {
      NotifiedAddresses(s, a, invites[1..], c);
      assert invites[0].account != c;
    }
  }

  lemma EnteredKeeps(f: Shape, s: State, o: Outcome, a: Account, invited: seq<Invite>)
    requires f.OnlyUnder(s, s, a.address) && BelowKept(f, s, o, a.address) && o.Done?
    requires a.enabled && a.content.Some? && f.Invitees(a.invited, a.address) && invited == Refreshed(a, a.invited)
    ensures Midway(f, s, Entered(o.s, a), a.(invited := invited))
  {
    var s2, a2 := Entered(o.s, a), a.(invited := invited);
    LogAppend(o.s.history, a.address, false, a.address);
    forall c {:trigger Untouched(o.s, s2, c)} | c != a.address ensures Untouched(o.s, s2, c) {
      LogAppend(o.s.history, a.address, false, c);
    }
    forall c {:trigger Untouched(s, o.s, c)} | !f.Under(a.address, c) ensures Untouched(s, o.s, c) {}
    MidwayAt(f, s, o.s, s2, a2);
  }

  lemma DroppedKeeps(f: Shape, s: State, a: Account, a1: Account)
    requires f.Orderly(s, a.address) && FreshCopy(f, s, a) && a.content.Some?
    requires a1.address == a.address && a1.invited == a.invited && a1.timestamp == a.timestamp &&
             a1.content == a.content
    ensures Midway(f, s, if a.enabled then Withdrawn(s, a1) else s, WithoutContent(a1))
  {
    Unchanged(f, s, a);
    var s2 := if a.enabled then Withdrawn(s, a1) else s;
    LogAppend(s.history, a.address, true, a.address);
    forall c {:trigger Untouched(s, s2, c)} | c != a.address ensures Untouched(s, s2, c) {
      LogAppend(s.history, a.address, true, c);
    }
    MidwayAt(f, s, s, s2, WithoutContent(a1));
  }

  // ---- The theorem ------------------------------------------------------------------------------------

  /** The invites of the stored accounts form a forest, and the three indexes agree. */
  ghost predicate AllInStep(f: Shape, s: State) {
    forall c :: f.Fits(s, c)
  }

  /** Every cascade started on a fresh copy, whose inviters may have been changed in any way, comes to an end,
      and if it does not fail it keeps the indexes in step. */
  lemma CascadeKeepsStep(f: Shape, s: State, a: Account, root: Address, fuel: nat)
    requires AllInStep(f, s) && FreshCopy(f, s, a)
    ensures Update(s, a, root, fuel).Done? ==> AllInStep(f, Update(s, a, root, fuel).s)
    ensures fuel > f.rank(a.address) ==> !Update(s, a, root, fuel).OutOfFuel?
  {
    UpdateKeeps(f, s, a, root, fuel);
    var o := Update(s, a, root, fuel);
    if o.Done? {
      forall c ensures f.Fits(o.s, c) {
        if !f.Under(a.address, c) {
          assert Untouched(s, o.s, c) && f.Fits(s, c);
          FitsSame(f, s, o.s, c);
        }
      }
    }
  }

  lemma {:induction false} LogShowsLatest(h: History, c: Address)
    ensures forall i :: IsLatest(h, i) && h[i].account == c ==> (LogShows(h, c) <==> !h[i].removed)
    ensures LogShows(h, c) ==> HasEvent(h, c)
  {
    if h != [] {
      var n := |h| - 1;
      var init := h[..n];
      if h[n].account == c {
        assert forall i :: IsLatest(h, i) && h[i].account == c ==> i == n;
      } else {
        LogShowsLatest(init, c);
        forall i | IsLatest(h, i) && h[i].account == c ensures IsLatest(init, i) {
          assert forall j :: i < j < n ==> init[j] == h[j];
        }
        if LogShows(h, c) {
          var i :| 0 <= i < |init| && init[i].account == c;
          assert h[i].account == c;
        }
      }
    }
  }

  /** With the indexes in step a page of the log can be served: every row that is not a removal names an
      enabled account with content, found with the timestamp that the merklehead has, and every such account
      has a row. */
  lemma EveryRowIsFound(f: Shape, s: State)
    requires AllInStep(f, s)
    ensures InStep(s.merkle, s.history)
    ensures forall i :: IsLatest(s.history, i) && !s.history[i].removed ==>
              var a := Fetch(s, s.history[i].account, false);
              a.Some? && a.value.content.Some? && Get(s.merkle, s.history[i].account) == Some(a.value.timestamp)
    ensures forall c :: Fetch(s, c, false).Some? && Fetch(s, c, false).value.content.Some? ==>
              exists i :: IsLatest(s.history, i) && s.history[i] == Event(c, false)
  {
    var h := s.history;
    forall i | IsLatest(h, i) ensures h[i].account in s.merkle <==> !h[i].removed {
      LogShowsLatest(h, h[i].account);
      assert f.Fits(s, h[i].account);
    }
    forall a | a in s.merkle ensures HasEvent(h, a) {
      LogShowsLatest(h, a);
      assert f.Fits(s, a);
    }
    forall i | IsLatest(h, i) && !h[i].removed
      ensures
        var a := Fetch(s, h[i].account, false);
        a.Some? && a.value.content.Some? && Get(s.merkle, h[i].account) == Some(a.value.timestamp)
    {
      LogShowsLatest(h, h[i].account);
      assert f.Fits(s, h[i].account);
    }
    forall c | Fetch(s, c, false).Some? && Fetch(s, c, false).value.content.Some?
      ensures exists i :: IsLatest(h, i) && h[i] == Event(c, false)
    {
      assert f.Fits(s, c);
      LogShowsLatest(h, c);
      var k :| 0 <= k < |h| && h[k].account == c;
      assert h[k] in h;
      var i := HasLatest(h, c);
      assert h[i] == Event(c, false);
    }
  }
}
