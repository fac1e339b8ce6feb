/** invite/invite.go and the account record of account/account.go. */
module Accounts {
  import opened Basics
  import opened DeltaLogs

  const ZERO_ADDRESS: Address := [0, 0, 0, 0, 0, 0, 0, 0, 0, 0, 0, 0, 0, 0, 0, 0, 0, 0, 0, 0]

  /** One account's invite as the invited account stores it. */
  datatype Inviter = Inviter(account: Address, activeTimestamp: nat, activeLevel: nat, timestamp: nat, lvlGap: nat)

  /** The same invite as the inviting account stores it. */
  datatype Invite = Invite(account: Address, timestamp: nat, lvlGap: nat, active: bool)

  const NO_INVITER := Inviter(ZERO_ADDRESS, 0, 0, 0, 0)

  function AssignedLevel(i: Inviter): nat {
    if i.account == ZERO_ADDRESS then 0 else i.activeLevel + 1 + i.lvlGap
  }

  /** Inviter.Equals: the bookkeeping about the inviter's own level is ignored. */
  predicate SameInviter(i: Inviter, j: Inviter) {
    i.account == j.account && i.timestamp == j.timestamp && i.lvlGap == j.lvlGap
  }

  datatype Account = Account(
    address: Address,
    inviters: seq<Inviter>,
    invited: seq<Invite>,
    activeInviter: Inviter,
    timestamp: nat,
    content: Option<Multihash>,
    enabled: bool)

  /** AccountStruct{Address: address} */
  function NewAccount(address: Address): Account {
    Account(address, [], [], NO_INVITER, 0, None, false)
  }

  /** AddInviter: the first entry of the same account is updated in place, otherwise one is appended. */
  function WithInviter(inviters: seq<Inviter>, i: Inviter): seq<Inviter> {
    if inviters == [] then [i]
    else if inviters[0].account == i.account then
      [inviters[0].(timestamp := i.timestamp, lvlGap := i.lvlGap)] + inviters[1..]
    else [inviters[0]] + WithInviter(inviters[1..], i)
  }

  /** RemoveInviter: all entries of the account go. */
  function WithoutInviter(inviters: seq<Inviter>, address: Address): seq<Inviter> {
    if inviters == [] then []
    else (if inviters[0].account == address then [] else [inviters[0]]) + WithoutInviter(inviters[1..], address)
  }

  predicate Has(inviters: seq<Inviter>, address: Address) {
    exists j :: 0 <= j < |inviters| && inviters[j].account == address
  }

  /** The first entry of an account in an inviter list. */
  function EntryOf(inviters: seq<Inviter>, address: Address): Option<Inviter> {
    if inviters == [] then None
    else if inviters[0].account == address then Some(inviters[0])
    else EntryOf(inviters[1..], address)
  }

  /** The entry `e` tells about the invite `i`. An entry that was there before keeps what it notes about the
      inviter's own standing; a new one notes the inviter's active timestamp and level as given. */
  ghost predicate Tells(e: Option<Inviter>, i: Inviter, before: Option<Inviter>) {
    e.Some? && e.value.account == i.account && e.value.timestamp == i.timestamp && e.value.lvlGap == i.lvlGap &&
    (before.Some? ==>
       e.value.activeTimestamp == before.value.activeTimestamp && e.value.activeLevel == before.value.activeLevel) &&
    (before.None? ==> e.value.activeTimestamp == i.activeTimestamp && e.value.activeLevel == i.activeLevel)
  }

  lemma {:induction false} EntryWith(inviters: seq<Inviter>, i: Inviter, y: Address)
    ensures Tells(EntryOf(WithInviter(inviters, i), i.account), i, EntryOf(inviters, i.account))
    ensures y != i.account ==> EntryOf(WithInviter(inviters, i), y) == EntryOf(inviters, y)
  {
    if inviters == [] {
      assert [i][1..] == [];
    } else if inviters[0].account == i.account {
      var first, rest := inviters[0].(timestamp := i.timestamp, lvlGap := i.lvlGap), inviters[1..];
      assert ([first] + rest)[0] == first && ([first] + rest)[1..] == rest;
    } else {
      EntryWith(inviters[1..], i, y);
      var all := [inviters[0]] + WithInviter(inviters[1..], i);
      assert all[0] == inviters[0] && all[1..] == WithInviter(inviters[1..], i);
    }
  }

  lemma {:induction false} EntryWithout(inviters: seq<Inviter>, address: Address, y: Address)
    ensures EntryOf(WithoutInviter(inviters, address), y) == if y == address then None else EntryOf(inviters, y)
  {
    if inviters != [] {
      var rest := WithoutInviter(inviters[1..], address);
      EntryWithout(inviters[1..], address, y);
      if inviters[0].account == address {
        assert [] + rest == rest;
      } else {
        assert ([inviters[0]] + rest)[0] == inviters[0] && ([inviters[0]] + rest)[1..] == rest;
      }
    }
  }

  // ---- The oldest inviter -----------------------------------------------------------------------------

  /** `i` is older than every other entry. */
  ghost predicate StrictlyOldest(inviters: seq<Inviter>, i: Inviter) {
    exists k :: 0 <= k < |inviters| && inviters[k] == i &&
                forall j :: 0 <= j < |inviters| && j != k ==> i.timestamp < inviters[j].timestamp
  }

  /** What the loop of DetermineActiveInviter finds: the first oldest entry, and whether another one is
      as old. */
  function Scan(inviters: seq<Inviter>): (Inviter, bool)
    requires inviters != []
  {
    var last := inviters[|inviters| - 1];
    if |inviters| == 1 then (last, false)
    else
      var (oldest, tie) := Scan(inviters[..|inviters| - 1]);
      if last.timestamp < oldest.timestamp then (last, false)
      else (oldest, tie || last.timestamp == oldest.timestamp)
  }

  /** The new active inviter; a tie ends the process. */
  function Chosen(inviters: seq<Inviter>): Option<Inviter>
    requires inviters != []
  {
    if |inviters| == 1 then Some(inviters[0])
    else
      var (oldest, tie) := Scan(inviters);
      if tie then None else Some(oldest)
  }

  lemma {:induction false} ScanFinds(inviters: seq<Inviter>) returns (k: nat)
    requires inviters != []
    ensures k < |inviters| && inviters[k] == Scan(inviters).0
    ensures forall j :: 0 <= j < |inviters| ==> Scan(inviters).0.timestamp <= inviters[j].timestamp
    ensures !Scan(inviters).1 <==>
            forall j :: 0 <= j < |inviters| && j != k ==> Scan(inviters).0.timestamp < inviters[j].timestamp
  {
    var n := |inviters| - 1;
    if n == 0 {
      k := 0;
    } else {
      var init := inviters[..n];
      k := ScanFinds(init);
      assert forall j :: 0 <= j < n ==> init[j] == inviters[j];
      if inviters[n].timestamp < Scan(init).0.timestamp { k := n; }
    }
  }

  /** The chosen inviter is the one that is older than all others; without such a one the choice fails. */
  lemma ChosenIsOldest(inviters: seq<Inviter>, i: Inviter)
    requires inviters != []
    ensures Chosen(inviters) == Some(i) <==> StrictlyOldest(inviters, i)
  {
    var k := ScanFinds(inviters);
    if StrictlyOldest(inviters, i) {
      var m :| 0 <= m < |inviters| && inviters[m] == i &&
               forall j :: 0 <= j < |inviters| && j != m ==> i.timestamp < inviters[j].timestamp;
      assert Scan(inviters).0.timestamp <= inviters[m].timestamp;
      assert k == m;
    }
    if |inviters| > 1 && !Scan(inviters).1 {
      assert inviters[k] == Scan(inviters).0;
    }
    if |inviters| == 1 { assert StrictlyOldest(inviters, inviters[0]); }
  }
}
