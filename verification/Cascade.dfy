/** account/recursive.go as functions on the stored state: RecurseUpdateStatus, CheckAllInvited,
    DisableAccount and ReenableWithContent. The code in AccountCode.dfy is proved equal to these; the
    theorems are in CascadeDisable.dfy, CascadeReinvite.dfy and CascadeIndexes.dfy. */
module Cascade {
  import opened Basics
  import opened DeltaLogs
  import opened Accounts

  /** The accounts bucket, the merklehead as its map, and the history behind the delta log. */
  datatype State = State(accounts: map<Address, Account>, merkle: map<Address, nat>, history: History)

  /** A call returns, ends the process (log.Fatal or panic), or is cut off by the recursion bound that
      makes these functions total on cyclic graphs. */
  datatype Outcome = Done(s: State) | Fatal | OutOfFuel

  // ---- Single writes ----------------------------------------------------------------------------------

  /** FetchAccountFromDb */
  function Fetch(s: State, address: Address, includeDisabled: bool): Option<Account> {
    if address !in s.accounts || (!s.accounts[address].enabled && !includeDisabled) then None
    else Some(s.accounts[address].(address := address))
  }

  function FetchOrNew(s: State, address: Address): Account {
    var a := Fetch(s, address, true);
    if a.Some? then a.value else NewAccount(address)
  }

  /** SaveToDb refuses an enabled account without an active inviter, except the root. */
  function Save(s: State, a: Account, root: Address): Outcome {
    if a.address != root && a.enabled && a.activeInviter.timestamp == 0 then Fatal
    else Done(s.(accounts := s.accounts[a.address := a]))
  }

  /** The account enters or leaves the merklehead and the delta log records it. */
  function Entered(s: State, a: Account): State {
    s.(merkle := s.merkle[a.address := a.timestamp], history := s.history + [Event(a.address, false)])
  }

  function Withdrawn(s: State, a: Account): State {
    s.(merkle := s.merkle - {a.address}, history := s.history + [Event(a.address, true)])
  }

  function WithoutContent(a: Account): Account {
    a.(content := None, timestamp := 0)
  }

  /** The inviter entry that account `a` gives to somebody it invites. */
  function InviterFor(a: Account, i: Invite): Inviter {
    Inviter(a.address, a.activeInviter.timestamp, AssignedLevel(a.activeInviter), i.timestamp, i.lvlGap)
  }

  function Invited(a: Account, inviter: Inviter): Account {
    a.(inviters := WithInviter(a.inviters, inviter))
  }

  function Uninvited(a: Account, inviter: Address): Account {
    a.(inviters := WithoutInviter(a.inviters, inviter))
  }

  /** An invite counts only if it is newer than the inviter's own. */
  predicate Counts(a: Account, i: Invite) {
    i.timestamp > a.activeInviter.timestamp
  }

  /** UpdateInvited starting from an empty list: which invites are active, and the invited accounts, as they
      are stored, with their new inviter. */
  function Refreshed(a: Account, invites: seq<Invite>): seq<Invite> {
    seq(|invites|, j requires 0 <= j < |invites| => invites[j].(active := Counts(a, invites[j])))
  }

  function Notified(s: State, a: Account, invites: seq<Invite>): (copies: seq<Account>)
    ensures |copies| <= |invites|
  {
    if invites == [] then []
    else
      (if Counts(a, invites[0]) then [Invited(FetchOrNew(s, invites[0].account), InviterFor(a, invites[0]))] else [])
      + Notified(s, a, invites[1..])
  }

  /** "account missing valid inviter details" */
  predicate Nameless(a: Account) {
    a.activeInviter.timestamp == 0 && AssignedLevel(a.activeInviter) == 0
  }

  // ---- The cascade ------------------------------------------------------------------------------------

  /** RecurseUpdateStatus on a copy of an account; the copy is saved at the end. */
  function Update(s: State, a: Account, root: Address, fuel: nat): Outcome
    decreases fuel, 0
  {
    if fuel == 0 then OutOfFuel
    else if a.address == root then
      var checked := CheckAll(s, a, a.invited, root, fuel - 1);
      if checked.Done? then Save(checked.s, a, root) else checked
    else if a.inviters == [] then
      var removed := RemoveFrom(Disabling(s, a), a.address, a.invited, root, fuel - 1);
      if removed.Done? then Save(removed.s, Off(a), root) else removed
    else
      var chosen := Chosen(a.inviters);
      if chosen.None? then Fatal else Enable(s, a, chosen.value, root, fuel - 1)
  }

  /** DisableAccount before its loop, and the account it leaves. */
  function Disabling(s: State, a: Account): State {
    if a.content.Some? then Withdrawn(s, a) else s
  }

  function Off(a: Account): Account {
    a.(enabled := false, activeInviter := NO_INVITER)
  }

  /** The account with its new active inviter, before its content is looked at. */
  function On(a: Account, inviter: Inviter): Account {
    a.(enabled := true, activeInviter := if SameInviter(inviter, a.activeInviter) then a.activeInviter else inviter)
  }

  /** A level change takes the account out of the merklehead and puts it back. */
  function Releveled(s: State, a: Account, inviter: Inviter): State {
    if !SameInviter(inviter, a.activeInviter) && a.enabled && a.content.Some? &&
       AssignedLevel(a.activeInviter) != AssignedLevel(inviter)
    then s.(merkle := (s.merkle - {a.address})[a.address := a.timestamp]) else s
  }

  /** The part of RecurseUpdateStatus for an account that has an inviter. */
  function Enable(s: State, a: Account, inviter: Inviter, root: Address, fuel: nat): Outcome
    decreases fuel, |a.invited| + 3
  {
    var changed := !SameInviter(inviter, a.activeInviter);
    var s1, a1 := Releveled(s, a, inviter), On(a, inviter);
    if a.content.Some? && !a.enabled && a.timestamp > inviter.timestamp then
      // ReenableWithContent
      var copies := Notified(s1, a1, a.invited);
      var updated := if copies != [] && Nameless(a1) then Fatal else UpdateEach(s1, copies, root, fuel);
      if updated.Done? then
        Finish(Entered(updated.s, a1), a1.(invited := Refreshed(a1, a.invited)), changed, root, fuel)
      else updated
    else if a.content.Some? && (!a.enabled || inviter.timestamp > a.timestamp) then
      Finish(if a.enabled then Withdrawn(s1, a1) else s1, WithoutContent(a1), changed, root, fuel)
    else
      Finish(s1, a1, changed, root, fuel)
  }

  function Finish(s: State, a: Account, changed: bool, root: Address, fuel: nat): Outcome
    decreases fuel, |a.invited| + 2
  {
    var checked := if changed then CheckAll(s, a, a.invited, root, fuel) else Done(s);
    if checked.Done? then Save(checked.s, a, root) else checked
  }

  /** The loop of CheckAllInvited over the account's invites. */
  function CheckAll(s: State, a: Account, invites: seq<Invite>, root: Address, fuel: nat): Outcome
    decreases fuel, |invites| + 1
  {
    if invites == [] then Done(s)
    else
      var i := invites[0];
      var child :=
        if i.active then Fetch(s, i.account, false)
        else Some(Invited(FetchOrNew(s, i.account), InviterFor(a, i)));
      var one :=
        if child.None? then Fatal  // "missing account"
        else if i.active || Counts(a, i) then Update(s, child.value, root, fuel)
        else Done(s);
      if one.Done? then CheckAll(one.s, a, invites[1..], root, fuel) else one
  }

  /** The loop of DisableAccount over the account's invites. */
  function RemoveFrom(s: State, address: Address, invites: seq<Invite>, root: Address, fuel: nat): Outcome
    decreases fuel, |invites| + 1
  {
    if invites == [] then Done(s)
    else
      var child := Fetch(s, invites[0].account, false);
      var one := if child.None? then Fatal else Update(s, Uninvited(child.value, address), root, fuel);
      if one.Done? then RemoveFrom(one.s, address, invites[1..], root, fuel) else one
  }

  /** The loop over the accounts that UpdateInvited returned: they are copies taken beforehand. */
  function UpdateEach(s: State, copies: seq<Account>, root: Address, fuel: nat): Outcome
    decreases fuel, |copies| + 1
  {
    if copies == [] then Done(s)
    else
      var one := Update(s, copies[0], root, fuel);
      if one.Done? then UpdateEach(one.s, copies[1..], root, fuel) else one
  }
}
