/** account/account.go, account/recursive.go and account/updateinvites.go as code on stored records and
    mutable account objects, proved to do what Cascade.dfy and UpdateInvited.dfy say. */
module AccountCode {
  import opened Basics
  import opened DeltaLogs
  import opened Accounts
  import opened Cascade
  import opened CascadeRecords
  import opened Commits
  import opened UpdatedInvites

  /** The transaction: the accounts bucket, the merklehead as its map, and the events of the delta log. */
  class Database {
    const root: Address
    var accounts: map<Address, Account>
    var merkle: map<Address, nat>
    var history: History

    constructor (root: Address)
      ensures this.root == root && Now() == State(map[], map[], [])
    {
      this.root, accounts, merkle, history := root, map[], map[], [];
    }

    function Now(): State
      reads this
    {
      State(accounts, merkle, history)
    }

    method FetchAccountFromDb(address: Address, includeDisabled: bool) returns (a: AccountStruct?)
      ensures a == null <==> Fetch(Now(), address, includeDisabled) == None
      ensures a == null <==> address !in accounts || (!accounts[address].enabled && !includeDisabled)
      ensures a != null ==> fresh(a) && Fetch(Now(), address, includeDisabled) == Some(a.Value())
    {
      if address !in accounts {
        return null;
      }
      a := new AccountStruct(accounts[address]);
      a.address := address;
      if !a.enabled && !includeDisabled {
        return null;
      }
    }
  }

  /** AccountStruct. Fields that the cascade does not look at are left out. */
  class AccountStruct {
    var address: Address
    var inviters: seq<Inviter>
    var invited: seq<Invite>
    var activeInviter: Inviter
    var timestamp: nat
    var content: Option<Multihash>
    var enabled: bool

    constructor (a: Account)
      ensures Value() == a
    {
      address, inviters, invited, activeInviter, timestamp, content, enabled :=
        a.address, a.inviters, a.invited, a.activeInviter, a.timestamp, a.content, a.enabled;
    }

    function Value(): Account
      reads this
    {
      Account(address, inviters, invited, activeInviter, timestamp, content, enabled)
    }

    // ---- account.go -----------------------------------------------------------------------------------

    method AddInviter(inviter: Inviter)
      modifies this`inviters
      ensures Value() == Invited(old(Value()), inviter)
    {
      hide WithInviter;
      var i := 0;
      assert inviters[..0] + WithInviter(inviters[0..], inviter) == WithInviter(inviters[0..], inviter);
      while i < |inviters|
        invariant 0 <= i <= |inviters| && inviters == old(inviters)
        invariant WithInviter(inviters, inviter) == inviters[..i] + WithInviter(inviters[i..], inviter)
      {
        AddStep(inviters, inviter, i);
        if inviters[i].account == inviter.account {
          inviters := inviters[i := inviters[i].(timestamp := inviter.timestamp, lvlGap := inviter.lvlGap)];
          return;
        }
        i := i + 1;
      }
      AddLast(inviters, inviter);
      inviters := inviters + [inviter];
    }

    method RemoveInviter(address: Address) returns (found: bool)
      modifies this`inviters
      ensures Value() == Uninvited(old(Value()), address)
      ensures found <==> Has(old(inviters), address)
    {
      hide WithoutInviter;
      var newInviters := [];
      found := false;
      var i := 0;
      assert inviters[0..] == inviters;
      assert [] + WithoutInviter(inviters[0..], address) == WithoutInviter(inviters, address);
      while i < |inviters|
        invariant 0 <= i <= |inviters| && inviters == old(inviters)
        invariant WithoutInviter(inviters, address) == newInviters + WithoutInviter(inviters[i..], address)
        invariant found <==> exists j :: 0 <= j < i && inviters[j].account == address
      {
        RemoveStep(inviters, address, i, newInviters);
        if inviters[i].account != address {
          newInviters := newInviters + [inviters[i]];
        } else {
          found := true;
        }
        i := i + 1;
      }
      RemoveLast(inviters, address, newInviters);
      inviters := newInviters;
    }

    /** The first of the oldest inviters; none when two are equally old, which ends the process. */
    method DetermineActiveInviter() returns (chosen: Option<Inviter>)
      requires inviters != []
      ensures chosen == if Scan(inviters).1 then None else Some(Scan(inviters).0)
    {
      var oldest, foundMultiple := 0, false;
      var i := 1;
      assert inviters[..1] == [inviters[0]];
      while i < |inviters|
        invariant 1 <= i <= |inviters| && oldest < i
        invariant Scan(inviters[..i]) == (inviters[oldest], foundMultiple)
      {
        assert inviters[..i + 1][..i] == inviters[..i] && inviters[..i + 1][i] == inviters[i];
        if inviters[i].timestamp < inviters[oldest].timestamp {
          oldest, foundMultiple := i, false;
        } else if inviters[i].timestamp == inviters[oldest].timestamp {
          foundMultiple := true;
        }
        i := i + 1;
      }
      assert inviters[..i] == inviters;
      if foundMultiple {
        return None;  // "two invites with same age"
      }
      return Some(inviters[oldest]);
    }

    /** False stands for the fatal "account requires active inviter to be set". */
    method SaveToDb(tx: Database) returns (ok: bool)
      modifies tx`accounts
      ensures ok <==> Save(old(tx.Now()), Value(), tx.root).Done?
      ensures ok <==> address == tx.root || !enabled || activeInviter.timestamp > 0
      ensures ok ==> Done(tx.Now()) == Save(old(tx.Now()), Value(), tx.root)
    {
      if address != tx.root && enabled && activeInviter.timestamp == 0 {
        return false;
      }
      tx.accounts := tx.accounts[address := Value()];
      ok := true;
    }

    // ---- updateinvites.go -----------------------------------------------------------------------------

    /** The first loop of UpdateInvited: an index of the original invites. */
    method IndexInvited() returns (index: Originals)
      ensures index == Indexed(invited)
    {
      index := map[];
      for i := 0 to |invited|
        invariant index == Indexed(invited[..i])
      {
        assert invited[..i + 1][..i] == invited[..i];
        index := index[invited[i].account := invited[i]];
      }
      assert invited[..|invited|] == invited;
    }

    /** The invited account, new if need be, with its inviter entry. */
    method InvitedAccount(i: Invite, tx: Database) returns (invitedAccount: AccountStruct)
      ensures fresh(invitedAccount)
      ensures invitedAccount.Value() == Invited(FetchOrNew(tx.Now(), i.account), InviterFor(Value(), i))
      ensures Tells(EntryOf(invitedAccount.inviters, address),
                    Inviter(address, activeInviter.timestamp, AssignedLevel(activeInviter), i.timestamp, i.lvlGap),
                    EntryAt(tx.Now(), i.account, address))
    {
      var found := tx.FetchAccountFromDb(i.account, true);
      if found == null {
        invitedAccount := new AccountStruct(NewAccount(i.account));
      } else {
        invitedAccount := found;
      }
      ghost var before := invitedAccount.inviters;
      var inviter := Inviter(address, activeInviter.timestamp, AssignedLevel(activeInviter), i.timestamp, i.lvlGap);
      invitedAccount.AddInviter(inviter);
      EntryWith(before, inviter, address);
    }

    /** The second loop: which invites are active, and which of those are news. */
    method MarkInvites(original: Originals, tx: Database)
      returns (ok: bool, updated: seq<AccountStruct>, left: Originals)
      modifies this`invited
      ensures ok <==> !(Nameless(old(Value())) && Changed(tx.Now(), old(Value()), original, old(invited)) != [])
      ensures !ok ==> activeInviter.timestamp == 0 && activeInviter.account == ZERO_ADDRESS
      ensures ok ==> invited == Refreshed(old(Value()), old(invited))
      ensures ok ==> left == Unclaimed(old(Value()), original, old(invited))
      ensures ok ==> Holds(updated, Changed(tx.Now(), old(Value()), original, old(invited)))
      ensures forall j :: 0 <= j < |updated| ==> fresh(updated[j])
    {
      hide FetchOrNew, Invited, InviterFor, Changed, Unclaimed, Holds, Marked, Refreshed, Tells, EntryOf, EntryAt;
      ghost var s, a, invites := tx.Now(), Value(), invited;
      ghost var copies: seq<Account> := [];
      left, updated := original, [];
      assert invites[0..] == invites && [] + Changed(s, a, original, invites) == Changed(s, a, original, invites);
      HoldsNone();
      MarkedNone(a, invites);
      for i := 0 to |invited|
        invariant |invited| == |invites| && Marked(a, invites, invited, i)
        invariant Changed(s, a, original, invites) == copies + Changed(s, a, left, invites[i..])
        invariant Unclaimed(a, original, invites) == Unclaimed(a, left, invites[i..])
        invariant Holds(updated, copies) && (Nameless(a) ==> copies == [])
        invariant forall j :: 0 <= j < |updated| ==> fresh(updated[j])
      {
        MarkedOne(a, invites, invited, i);
        var tmpInvite := invited[i];
        ChangedStep(s, a, left, invites, i);
        if tmpInvite.timestamp <= activeInviter.timestamp {
          invited := invited[i := tmpInvite.(active := false)];
          continue;
        }
        invited := invited[i := tmpInvite.(active := true)];
        if !(tmpInvite.account in left && SameInvite(tmpInvite, left[tmpInvite.account])) {
          if activeInviter.timestamp == 0 && AssignedLevel(activeInviter) == 0 {
            return false, [], left;  // "account missing valid inviter details"
          }
          var invitedAccount := InvitedAccount(tmpInvite, tx);
          InviterForSame(a, Value(), tmpInvite);
          ghost var rest := Changed(s, a, left - {tmpInvite.account}, invites[i + 1..]);
          assert copies + ([invitedAccount.Value()] + rest) == (copies + [invitedAccount.Value()]) + rest;
          HoldsOneMore(updated, copies, invitedAccount);
          updated, copies := updated + [invitedAccount], copies + [invitedAccount.Value()];
        }
        left := left - {tmpInvite.account};
      }
      assert invites[|invites|..] == [] && copies + [] == copies;
      ChangedNone(s, a, left);
      assert copies == Changed(s, a, original, invites);
      MarkedAll(a, invites, invited);
      ok := true;
    }

    /** The third loop, over the invites that were not found again. The order in which Go visits the index is
        arbitrary. */
    method DropInvites(left: Originals, tx: Database)
      returns (ok: bool, updated: seq<AccountStruct>, ghost order: seq<Address>)
      ensures
        var dropped := Countable(Value(), left);
        (ok <==> forall c :: c in dropped ==> Removable(tx.Now(), c, address)) &&
        (ok ==> Visits(order, dropped) && (forall j :: 0 <= j < |order| ==> Removable(tx.Now(), order[j], address)) &&
                Holds(updated, Removals(tx.Now(), address, order)))
      ensures forall j :: 0 <= j < |updated| ==> fresh(updated[j])
    {
      hide Holds, Removable, Removals, Visits;
      updated, order := [], [];
      NoRemovals(tx.Now(), address);
      var keys := left.Keys;
      VisitsNone(order, Countable(Value(), left) - keys);
      while keys != {}
        invariant keys <= left.Keys
        invariant Visits(order, Countable(Value(), left) - keys)
        invariant forall j :: 0 <= j < |order| ==> Removable(tx.Now(), order[j], address)
        invariant Holds(updated, Removals(tx.Now(), address, order))
        invariant forall j :: 0 <= j < |updated| ==> fresh(updated[j])
        decreases keys
      {
        var key :| key in keys;
        assert keys == keys - {key} + {key};
        keys := keys - {key};
        VisitsOneMore(order, Countable(Value(), left), keys, key);
        if left[key].timestamp > activeInviter.timestamp {
          RemovableIs(tx.Now(), key, address);
          var invitedAccount := tx.FetchAccountFromDb(key, false);
          if invitedAccount == null {
            return false, [], [];  // "Should not happen"
          }
          ghost var was := invitedAccount.inviters;
          assert Fetch(tx.Now(), key, false).value.inviters == was;
          var wasRemoved := invitedAccount.RemoveInviter(address);
          assert wasRemoved <==> Removable(tx.Now(), key, address);
          if !wasRemoved {
            return false, [], [];  // "could not remove invite"
          }
          RemovalsSnoc(tx.Now(), address, order, key);
          HoldsOneMore(updated, Removals(tx.Now(), address, order), invitedAccount);
          updated, order := updated + [invitedAccount], order + [key];
        }
      }
      ok := true;
      assert Countable(Value(), left) - keys == Countable(Value(), left);
      VisitsAll(order, Countable(Value(), left), tx.Now(), address);
    }

    /** Replaces the invites and returns the accounts that have to be looked at again, the changed ones
        first. False stands for the fatal exits. */
    method UpdateInvited(invites: seq<Invite>, tx: Database)
      returns (ok: bool, updated: seq<AccountStruct>, ghost order: seq<Address>)
      modifies this`invited
      ensures
        var s, a, original := tx.Now(), old(Value()), old(invited);
        ok <==> !(Nameless(a) && Changed(s, a, Indexed(original), invites) != []) &&
                forall c :: c in Dropped(a, original, invites) ==> Removable(s, c, address)
      ensures
        var s, a, original := tx.Now(), old(Value()), old(invited);
        ok ==> Value() == a.(invited := Refreshed(a, invites)) && Visits(order, Dropped(a, original, invites)) &&
               (forall j :: 0 <= j < |order| ==> Removable(s, order[j], address)) &&
               Holds(updated, Returned(s, a, original, invites, order))
      ensures forall j :: 0 <= j < |updated| ==> fresh(updated[j])
    {
      ghost var s, a := tx.Now(), Value();
      order := [];
      var index := IndexInvited();
      invited := invites;
      ComparisonSame(s, a, Value(), index, invites);
      var left, changed, dropped;
      ok, changed, left := MarkInvites(index, tx);
      if !ok { return false, [], []; }
      ok, dropped, order := DropInvites(left, tx);
      if !ok { return false, [], []; }
      updated := changed + dropped;
      HoldsBoth(changed, dropped, Changed(s, a, index, invites), Removals(s, address, order));
    }

    // ---- recursive.go ---------------------------------------------------------------------------------

    /** The part of RecurseUpdateStatus that looks at the content: an account that was disabled comes back with
        it, or loses it if it is not newer than the invite. */
    method CheckContent(newInviter: Inviter, origEnabled: bool, tx: Database, ghost fuel: nat) returns (ok: bool)
      requires !AfterContent(tx.Now(), Value(), origEnabled, newInviter, tx.root, fuel).OutOfFuel?
      modifies this, tx
      ensures Does(ok, tx.Now(), old(AfterContent(tx.Now(), Value(), origEnabled, newInviter, tx.root, fuel)))
      ensures ok ==> Value() == Kept(old(Value()), origEnabled, newInviter)
      decreases fuel, 3
    {
      hide UpdateEach, Notified, Refreshed;
      if !origEnabled && content.Some? {
        if timestamp > newInviter.timestamp {
          ok := ReenableWithContent(tx, fuel);
          if !ok { return; }
        } else {
          content, timestamp := None, 0;
        }
      }

      if origEnabled && newInviter.timestamp > timestamp && content.Some? {
        tx.merkle := tx.merkle - {address};
        content, timestamp := None, 0;
        tx.history := tx.history + [Event(address, true)];
      }
      ok := true;
    }

    /** False stands for a fatal exit or a panic anywhere in the recursion. */
    method RecurseUpdateStatus(tx: Database, ghost fuel: nat) returns (ok: bool)
      requires !Update(tx.Now(), Value(), tx.root, fuel).OutOfFuel?
      modifies this, tx
      ensures Does(ok, tx.Now(), old(Update(tx.Now(), Value(), tx.root, fuel)))
      decreases fuel, 0
    {
      hide CheckAll, RemoveFrom, UpdateEach, Notified, Refreshed, Scan;
      ghost var s, a := tx.Now(), Value();
      CheckNone(s, a, tx.root, fuel - 1);
      var origEnabled := enabled;
      var newInviter: Inviter;
      if address == tx.root {
        if |invited| > 0 {
          ok := CheckAllInvited(tx, fuel - 1);
          if !ok { return; }
        }
      } else {
        if |inviters| == 0 {
          ok := DisableAccount(tx, fuel - 1);
          if !ok { return; }
          ok := SaveToDb(tx);
          return;
        } else if |inviters| == 1 {
          newInviter := inviters[0];
        } else {
          var chosen := DetermineActiveInviter();
          if chosen.None? { return false; }
          newInviter := chosen.value;
        }
        assert Update(s, a, tx.root, fuel) == Enable(s, a, newInviter, tx.root, fuel - 1);
        enabled := true;

        var inviterChanged := false;
        if !SameInviter(newInviter, activeInviter) {
          inviterChanged := true;
          if origEnabled && AssignedLevel(activeInviter) != AssignedLevel(newInviter) && content.Some? {
            tx.merkle := tx.merkle - {address};
            tx.merkle := tx.merkle[address := timestamp];
          }
          activeInviter := newInviter;
        }
        assert Value() == On(a, newInviter) && tx.Now() == Releveled(s, a, newInviter);

        ok := CheckContent(newInviter, origEnabled, tx, fuel - 1);
        EnableParts(s, a, newInviter, tx.root, fuel - 1);
        if !ok { return; }
        assert Enable(s, a, newInviter, tx.root, fuel - 1) ==
          Finish(tx.Now(), Value(), inviterChanged, tx.root, fuel - 1);
        CheckNone(tx.Now(), Value(), tx.root, fuel - 1);

        if inviterChanged {
          if |invited| > 0 {
            ok := CheckAllInvited(tx, fuel - 1);
            if !ok { return; }
          }
        }
      }
      ok := SaveToDb(tx);
    }

    method CheckAllInvited(tx: Database, ghost fuel: nat) returns (ok: bool)
      requires !CheckAll(tx.Now(), Value(), invited, tx.root, fuel).OutOfFuel?
      modifies tx
      ensures Does(ok, tx.Now(), old(CheckAll(tx.Now(), Value(), invited, tx.root, fuel)))
      decreases fuel, 1
    {
      ghost var goal := CheckAll(tx.Now(), Value(), invited, tx.root, fuel);
      assert invited[0..] == invited;
      for i := 0 to |invited|
        invariant Value() == old(Value())
        invariant CheckAll(tx.Now(), Value(), invited[i..], tx.root, fuel) == goal
      {
        var invite := invited[i];
        assert invited[i..][0] == invite && invited[i..][1..] == invited[i + 1..];
        if !invite.active {
          if activeInviter.timestamp < invite.timestamp {
            var childAccount := tx.FetchAccountFromDb(invite.account, true);
            if childAccount == null {
              childAccount := new AccountStruct(NewAccount(invite.account));
            }
            childAccount.AddInviter(
              Inviter(address, activeInviter.timestamp, AssignedLevel(activeInviter), invite.timestamp, invite.lvlGap));
            assert childAccount.Value() == Invited(FetchOrNew(tx.Now(), invite.account), InviterFor(Value(), invite));
            ok := childAccount.RecurseUpdateStatus(tx, fuel);
            if !ok { return; }
          }
        } else {
          var childAccount := tx.FetchAccountFromDb(invite.account, false);
          if childAccount == null {
            return false;  // "missing account"
          }
          ok := childAccount.RecurseUpdateStatus(tx, fuel);
          if !ok { return; }
        }
      }
      assert invited[|invited|..] == [];
      ok := true;
    }

    method DisableAccount(tx: Database, ghost fuel: nat) returns (ok: bool)
      requires !RemoveFrom(Disabling(tx.Now(), Value()), address, invited, tx.root, fuel).OutOfFuel?
      modifies this, tx
      ensures old(inviters) == [] ==>
                Does(ok, tx.Now(), old(RemoveFrom(Disabling(tx.Now(), Value()), address, invited, tx.root, fuel)))
      ensures ok ==> Value() == Off(old(Value()))
      ensures old(inviters) != [] ==> !ok
      decreases fuel, 1
    {
      if |inviters| > 0 {
        return false;  // "Cant disable an account with existing inviters"
      }
      ghost var goal := RemoveFrom(Disabling(tx.Now(), Value()), address, invited, tx.root, fuel);
      enabled := false;
      if content.Some? {
        tx.merkle := tx.merkle - {address};
        tx.history := tx.history + [Event(address, true)];
      }
      activeInviter := NO_INVITER;
      assert invited[0..] == invited;
      for i := 0 to |invited|
        invariant Value() == Off(old(Value()))
        invariant RemoveFrom(tx.Now(), address, invited[i..], tx.root, fuel) == goal
      {
        assert invited[i..][0] == invited[i] && invited[i..][1..] == invited[i + 1..];
        var childAccount := tx.FetchAccountFromDb(invited[i].account, false);
        if childAccount == null {
          return false;  // "missing account"
        }
        var _ := childAccount.RemoveInviter(address);
        ok := childAccount.RecurseUpdateStatus(tx, fuel);
        if !ok { return; }
      }
      assert invited[|invited|..] == [];
      ok := true;
    }

    /** The loop over the accounts that UpdateInvited returned. */
    static method UpdateAccounts(updated: seq<AccountStruct>, tx: Database, ghost fuel: nat, ghost copies: seq<Account>)
      returns (ok: bool)
      requires Holds(updated, copies) && !UpdateEach(tx.Now(), copies, tx.root, fuel).OutOfFuel?
      modifies tx, set o | o in updated
      ensures Does(ok, tx.Now(), old(UpdateEach(tx.Now(), copies, tx.root, fuel)))
      decreases fuel, 1
    {
      ghost var s := tx.Now();
      assert copies[0..] == copies;
      for i := 0 to |updated|
        invariant forall j :: i <= j < |updated| ==> updated[j].Value() == copies[j]
        invariant UpdateEach(tx.Now(), copies[i..], tx.root, fuel) == UpdateEach(s, copies, tx.root, fuel)
      {
        assert copies[i..][0] == copies[i] && copies[i..][1..] == copies[i + 1..];
        ok := updated[i].RecurseUpdateStatus(tx, fuel);
        if !ok { return; }
      }
      assert copies[|updated|..] == [];
      ok := true;
    }

    method ReenableWithContent(tx: Database, ghost fuel: nat) returns (ok: bool)
      requires !Reenabling(tx.Now(), Value(), tx.root, fuel).OutOfFuel?
      modifies this, tx
      ensures
        var a, o := old(Value()), old(Reenabling(tx.Now(), Value(), tx.root, fuel));
        (ok <==> o.Done?) &&
        (ok ==> tx.Now() == Entered(o.s, a) && Value() == a.(invited := Refreshed(a, a.invited)))
      decreases fuel, 2
    {
      ghost var s, a := tx.Now(), Value();
      var copyInvited := invited;
      invited := [];
      NothingBefore(s, Value(), copyInvited);
      NotifiedSame(s, a, Value(), copyInvited);
      var updated: seq<AccountStruct>;
      ghost var order;
      ok, updated, order := UpdateInvited(copyInvited, tx);
      ghost var copies := Notified(s, a, copyInvited);
      if !ok { return; }
      if order != [] { FirstIn(order); }
      assert copies + [] == copies;
      ok := UpdateAccounts(updated, tx, fuel, copies);
      if !ok { return; }
      tx.history := tx.history + [Event(address, false)];
      tx.merkle := tx.merkle[address := timestamp];
      ok := true;
    }
  }

  // ---- sigbundle.go ------------------------------------------------------------------------------------

  datatype Verdict = Refused | Failed | Saved

  /** One of the fatal exits of UpdateInvited. */
  ghost predicate CannotCompare(s: State, a: Account, post: Post) {
    a.content != Some(post.root) &&
    ((Nameless(a) && Changed(s, a, Indexed(a.invited), post.invites) != []) ||
     exists c :: c in Dropped(a, a.invited, post.invites) && !Removable(s, c, a.address))
  }

  /** A changed root document takes the place of the old one, with its invites. */
  method TakeContent(account: AccountStruct, post: Post, tx: Database)
    returns (ok: bool, updated: seq<AccountStruct>, ghost order: seq<Address>)
    modifies account
    ensures
      var s, a := tx.Now(), old(account.Value());
      (ok <==> !CannotCompare(s, a, post)) &&
      (ok ==>
        account.Value() == Posted(a, post) && Order(s, a, post, order) &&
        Holds(updated, Concerned(s, a, post, order)))
    ensures forall j :: 0 <= j < |updated| ==> fresh(updated[j])
  {
    hide Changed, Visits, Removable, Refreshed, Indexed, Unclaimed;
    ghost var s, a := tx.Now(), account.Value();
    if account.content == Some(post.root) {
      return true, [], [];
    }
    account.content := Some(post.root);
    ReturnedSame(s, a, account.Value(), a.invited, post.invites);
    ok, updated, order := account.UpdateInvited(post.invites, tx);
    if !ok {
      return false, [], [];
    }
    account.timestamp := post.timestamp;
  }

  /** The acceptance and commit part of ValidateAndSave. */
  method ValidateAndSave(post: Post, tx: Database, ghost fuel: nat)
    returns (verdict: Verdict, ghost order: seq<Address>)
    requires forall a, order :: Fetch(tx.Now(), post.account, false) == Some(a) && Order(tx.Now(), a, post, order) ==>
               !UpdateEach(Stored(tx.Now(), a, post), Concerned(tx.Now(), a, post, order), tx.root, fuel).OutOfFuel?
    modifies tx
    ensures verdict.Refused? <==> !Admissible(old(tx.Now()), post)
    ensures !verdict.Refused? <==>
              post.account in old(tx.accounts) &&
              var a := old(tx.accounts)[post.account];
              a.enabled && post.timestamp > a.timestamp && post.timestamp > a.activeInviter.timestamp
    ensures verdict.Refused? ==> tx.Now() == old(tx.Now())
    ensures !verdict.Refused? ==>
              var s, a := old(tx.Now()), Fetch(old(tx.Now()), post.account, false).value;
              if CannotCompare(s, a, post) || Save(s, Posted(a, post), tx.root).Fatal? then verdict.Failed?
              else
                Order(s, a, post, order) &&
                var o := UpdateEach(Stored(s, a, post), Concerned(s, a, post, order), tx.root, fuel);
                if o.Done? then verdict.Saved? && tx.Now() == o.s else verdict.Failed?
    ensures verdict.Saved? ==>
              forall f {:trigger Proper(f, old(tx.Now()), post)} :: Proper(f, old(tx.Now()), post) ==>
                post.account in tx.accounts &&
                HoldsPost(tx.accounts[post.account], Fetch(old(tx.Now()), post.account, false).value, post)
  {
    hide CannotCompare, Order, UpdateEach, Concerned, Posted;
    order := [];
    var account := tx.FetchAccountFromDb(post.account, false);
    if account == null {
      return Refused, order;  // "account not found"
    }
    if post.timestamp <= account.timestamp {
      return Refused, order;  // "timestamp must be more recent than previous"
    }
    if post.timestamp <= account.activeInviter.timestamp {
      return Refused, order;  // "timestamp must be more recent than invite"
    }
    ghost var s, a := tx.Now(), account.Value();
    PostedSame(a, post);
    var ok, updated;
    ok, updated, order := TakeContent(account, post, tx);
    if !ok {
      return Failed, order;
    }
    tx.history := tx.history + [Event(post.account, false)];
    ok := account.SaveToDb(tx);
    if !ok {
      return Failed, order;
    }
    tx.merkle := tx.merkle[post.account := post.timestamp];
    ok := AccountStruct.UpdateAccounts(updated, tx, fuel, Concerned(s, a, post, order));
    verdict := if ok then Saved else Failed;
    if ok {
      forall f | Proper(f, s, post)
        ensures post.account in tx.accounts && HoldsPost(tx.accounts[post.account], a, post)
      {
        PostIsStored(f, s, a, post, order, tx.root, fuel);
      }
    }
  }

  lemma PostedSame(a: Account, post: Post)
    ensures Posted(a, post).address == a.address && Posted(a, post).enabled == a.enabled
    ensures Posted(a, post).activeInviter == a.activeInviter
  {
  }

  lemma AddStep(inviters: seq<Inviter>, inviter: Inviter, i: nat)
    requires i < |inviters|
    ensures inviters[..i] + WithInviter(inviters[i..], inviter) ==
            if inviters[i].account == inviter.account
            then inviters[i := inviters[i].(timestamp := inviter.timestamp, lvlGap := inviter.lvlGap)]
            else inviters[..i + 1] + WithInviter(inviters[i + 1..], inviter)
  {
    var rest := WithInviter(inviters[i + 1..], inviter);
    assert inviters[i..][0] == inviters[i] && inviters[i..][1..] == inviters[i + 1..];
    assert inviters[..i] + ([inviters[i]] + rest) == inviters[..i + 1] + rest;
    var updated := inviters[i].(timestamp := inviter.timestamp, lvlGap := inviter.lvlGap);
    assert inviters[..i] + ([updated] + inviters[i + 1..]) == inviters[i := updated];
  }

  lemma AddLast(inviters: seq<Inviter>, inviter: Inviter)
    ensures inviters[..|inviters|] + WithInviter(inviters[|inviters|..], inviter) == inviters + [inviter]
  {
  }

  lemma RemoveStep(inviters: seq<Inviter>, x: Address, i: nat, kept: seq<Inviter>)
    requires i < |inviters|
    ensures kept + WithoutInviter(inviters[i..], x) ==
            (if inviters[i].account == x then kept else kept + [inviters[i]]) + WithoutInviter(inviters[i + 1..], x)
  {
    var rest := WithoutInviter(inviters[i + 1..], x);
    assert inviters[i..][0] == inviters[i] && inviters[i..][1..] == inviters[i + 1..];
    assert [] + rest == rest && kept + ([inviters[i]] + rest) == kept + [inviters[i]] + rest;
  }

  lemma RemoveLast(inviters: seq<Inviter>, x: Address, kept: seq<Inviter>)
    ensures kept + WithoutInviter(inviters[|inviters|..], x) == kept
  {
  }

  /** Different objects with these values. */
  ghost predicate Holds(objects: seq<AccountStruct>, values: seq<Account>)
    reads set o | o in objects
  {
    |objects| == |values| && (forall j :: 0 <= j < |objects| ==> objects[j].Value() == values[j]) &&
    forall i, j :: 0 <= i < j < |objects| ==> objects[i] != objects[j]
  }

  /** The call returned, in this state, exactly if the outcome says so. */
  ghost predicate Does(ok: bool, s: State, o: Cascade.Outcome) {
    (ok <==> o.Done?) && (ok ==> s == o.s)
  }

  /** ReenableWithContent up to its last two writes. */
  ghost function Reenabling(s: State, a: Account, root: Address, fuel: nat): Cascade.Outcome {
    var copies := Notified(s, a, a.invited);
    if copies != [] && Nameless(a) then Fatal else UpdateEach(s, copies, root, fuel)
  }

  /** Enable, cut where its content is dealt with: the state, and the account, after that. */
  ghost function AfterContent(s: State, a: Account, wasEnabled: bool, inviter: Inviter, root: Address,
                              fuel: nat): Cascade.Outcome {
    if a.content.Some? && !wasEnabled && a.timestamp > inviter.timestamp then
      var o := Reenabling(s, a, root, fuel);
      if o.Done? then Done(Entered(o.s, a)) else o
    else if a.content.Some? && wasEnabled && inviter.timestamp > a.timestamp then Done(Withdrawn(s, a))
    else Done(s)
  }

  ghost function Kept(a: Account, wasEnabled: bool, inviter: Inviter): Account {
    if a.content.Some? && !wasEnabled && a.timestamp > inviter.timestamp then a.(invited := Refreshed(a, a.invited))
    else if a.content.Some? && (!wasEnabled || inviter.timestamp > a.timestamp) then WithoutContent(a)
    else a
  }

  lemma EnableParts(s: State, a: Account, inviter: Inviter, root: Address, fuel: nat)
    ensures
      var o := AfterContent(Releveled(s, a, inviter), On(a, inviter), a.enabled, inviter, root, fuel);
      Enable(s, a, inviter, root, fuel) ==
      if o.Done?
      then Finish(o.s, Kept(On(a, inviter), a.enabled, inviter), !SameInviter(inviter, a.activeInviter), root, fuel)
      else o
  {
    hide UpdateEach, Notified, Refreshed, Finish;
  }

  /** The first `i` invites have been marked. */
  ghost predicate Marked(a: Account, invites: seq<Invite>, marked: seq<Invite>, i: nat) {
    |marked| == |invites| &&
    forall j :: 0 <= j < |invites| ==> marked[j] == if j < i then Refreshed(a, invites)[j] else invites[j]
  }

  lemma MarkedAll(a: Account, invites: seq<Invite>, marked: seq<Invite>)
    requires Marked(a, invites, marked, |invites|)
    ensures marked == Refreshed(a, invites)
  {
  }

  lemma MarkedNone(a: Account, invites: seq<Invite>)
    ensures Marked(a, invites, invites, 0)
  {
  }

  lemma MarkedOne(a: Account, invites: seq<Invite>, marked: seq<Invite>, i: nat)
    requires i < |invites| && Marked(a, invites, marked, i)
    ensures |marked| == |invites| && marked[i] == invites[i]
    ensures Marked(a, invites, marked[i := invites[i].(active := Counts(a, invites[i]))], i + 1)
  {
  }

  lemma ChangedStep(s: State, a: Account, left: Originals, invites: seq<Invite>, i: nat)
    requires i < |invites|
    ensures
      var invite, rest := invites[i], invites[i + 1..];
      Changed(s, a, left, invites[i..]) ==
        (if !Counts(a, invite) then Changed(s, a, left, rest)
         else if IsNews(left, invite)
         then [Invited(FetchOrNew(s, invite.account), InviterFor(a, invite))] +
              Changed(s, a, left - {invite.account}, rest)
         else Changed(s, a, left - {invite.account}, rest)) &&
      Unclaimed(a, left, invites[i..]) ==
      Unclaimed(a, if Counts(a, invite) then left - {invite.account} else left, rest)
  {
    assert invites[i..][0] == invites[i] && invites[i..][1..] == invites[i + 1..];
  }

  lemma InviterForSame(a: Account, a': Account, i: Invite)
    requires a.address == a'.address && a.activeInviter == a'.activeInviter
    ensures InviterFor(a, i) == InviterFor(a', i)
  {
  }

  /** The comparison depends on the address and the active inviter only. */
  lemma {:induction false} ComparisonSame(s: State, a: Account, a': Account, originals: Originals, invites: seq<Invite>)
    requires a.address == a'.address && a.activeInviter == a'.activeInviter
    ensures Changed(s, a, originals, invites) == Changed(s, a', originals, invites)
    ensures Unclaimed(a, originals, invites) == Unclaimed(a', originals, invites)
    ensures Refreshed(a, invites) == Refreshed(a', invites)
  {
    if invites != [] {
      var left := if Counts(a, invites[0]) then originals - {invites[0].account} else originals;
      ComparisonSame(s, a, a', left, invites[1..]);
    }
  }

  lemma ChangedNone(s: State, a: Account, left: Originals)
    ensures Changed(s, a, left, []) == [] && Unclaimed(a, left, []) == left
  {
  }

  lemma FirstIn(order: seq<Address>)
    requires order != []
    ensures exists c :: c in order
  {
    assert order[0] in order;
  }

  /** The left-over invites that counted before. */
  ghost function Countable(a: Account, left: Originals): set<Address> {
    set c | c in left && Counts(a, left[c])
  }

  lemma VisitsNone(order: seq<Address>, all: set<Address>)
    requires order == [] && all == {}
    ensures Visits(order, all)
  {
  }

  lemma VisitsOneMore(order: seq<Address>, all: set<Address>, keys: set<Address>, key: Address)
    requires key !in keys && Visits(order, all - (keys + {key}))
    ensures Visits(if key in all then order + [key] else order, all - keys)
  {
    var more := if key in all then order + [key] else order;
    forall c ensures c in more <==> c in all - keys {
      assert c in order <==> c in all - (keys + {key});
    }
    if key in all {
      forall j | 0 <= j < |order| ensures order[j] != key { assert order[j] in order; }
    }
  }

  lemma VisitsAll(order: seq<Address>, all: set<Address>, s: State, x: Address)
    requires Visits(order, all) && forall j :: 0 <= j < |order| ==> Removable(s, order[j], x)
    ensures forall c :: c in all ==> Removable(s, c, x)
  {
    forall c | c in all ensures Removable(s, c, x) {
      assert c in order;
      var j :| 0 <= j < |order| && order[j] == c;
    }
  }

  lemma CheckNone(s: State, a: Account, root: Address, fuel: nat)
    ensures CheckAll(s, a, [], root, fuel) == Done(s)
  {
  }

  lemma NoRemovals(s: State, x: Address)
    ensures Holds([], Removals(s, x, []))
  {
  }

  lemma RemovableIs(s: State, c: Address, x: Address)
    ensures Removable(s, c, x) <==> Fetch(s, c, false).Some? && Has(Fetch(s, c, false).value.inviters, x)
  {
  }

  lemma HoldsNone()
    ensures Holds([], [])
  {
  }

  lemma HoldsOneMore(objects: seq<AccountStruct>, values: seq<Account>, one: AccountStruct)
    requires Holds(objects, values) && one !in objects
    ensures Holds(objects + [one], values + [one.Value()])
  {
  }

  lemma ReturnedSame(s: State, a: Account, a': Account, invited: seq<Invite>, invites: seq<Invite>)
    requires a.address == a'.address && a.activeInviter == a'.activeInviter
    ensures Changed(s, a, Indexed(invited), invites) == Changed(s, a', Indexed(invited), invites)
    ensures Refreshed(a, invites) == Refreshed(a', invites) &&
            Dropped(a, invited, invites) == Dropped(a', invited, invites)
    ensures forall order :: (forall j :: 0 <= j < |order| ==> Removable(s, order[j], a.address)) ==>
              Returned(s, a, invited, invites, order) == Returned(s, a', invited, invites, order)
  {
    ComparisonSame(s, a, a', Indexed(invited), invites);
  }

  lemma HoldsBoth(p: seq<AccountStruct>, q: seq<AccountStruct>, ps: seq<Account>, qs: seq<Account>)
    requires Holds(p, ps) && Holds(q, qs)
    requires forall i, j :: 0 <= i < |p| && 0 <= j < |q| ==> p[i] != q[j]
    ensures Holds(p + q, ps + qs)
  {
  }

  lemma {:induction false} RemovalsSnoc(s: State, x: Address, order: seq<Address>, c: Address)
    requires forall j :: 0 <= j < |order| ==> Removable(s, order[j], x)
    requires Removable(s, c, x)
    ensures Removals(s, x, order + [c]) == Removals(s, x, order) + [Uninvited(s.accounts[c].(address := c), x)]
  {
    assert forall j :: 0 <= j < |order + [c]| ==> Removable(s, (order + [c])[j], x);
    if order != [] {
      assert (order + [c])[1..] == order[1..] + [c];
      RemovalsSnoc(s, x, order[1..], c);
    }
  }

  /** The notified accounts depend on the address and the active inviter only. */
  lemma {:induction false} NotifiedSame(s: State, a: Account, a': Account, invites: seq<Invite>)
    requires a.address == a'.address && a.activeInviter == a'.activeInviter
    ensures Notified(s, a, invites) == Notified(s, a', invites)
  {
    if invites != [] { NotifiedSame(s, a, a', invites[1..]); }
  }
}
