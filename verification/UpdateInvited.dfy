/** account/updateinvites.go: the three-way comparison of old invites, new invites and the account's own
    active timestamp, as functions on the stored state, and the mirror relation it restores. */
module UpdatedInvites {
  import opened Basics
  import opened DeltaLogs
  import opened Accounts
  import opened Cascade

  type Originals = map<Address, Invite>

  /** Invite.Equals */
  predicate SameInvite(i: Invite, j: Invite) {
    i.account == j.account && i.timestamp == j.timestamp && i.lvlGap == j.lvlGap
  }

  /** originalInvitedIndexed: a later invite of the same account replaces an earlier one. */
  function Indexed(invited: seq<Invite>): Originals {
    if invited == [] then map[]
    else
      var last := invited[|invited| - 1];
      Indexed(invited[..|invited| - 1])[last.account := last]
  }

  /** The invited account has to hear about the invite. */
  predicate IsNews(originals: Originals, i: Invite) {
    !(i.account in originals && SameInvite(i, originals[i.account]))
  }

  /** The accounts with new or changed active invites, as they will be stored. */
  function Changed(s: State, a: Account, originals: Originals, invites: seq<Invite>): (copies: seq<Account>)
    ensures |copies| <= |invites|
  {
    if invites == [] then []
    else if !Counts(a, invites[0]) then Changed(s, a, originals, invites[1..])
    else
      (if IsNews(originals, invites[0])
       then [Invited(FetchOrNew(s, invites[0].account), InviterFor(a, invites[0]))]
       else [])
      + Changed(s, a, originals - {invites[0].account}, invites[1..])
  }

  /** What is left of the index after the new invites: the dropped ones and those that never counted. */
  function Unclaimed(a: Account, originals: Originals, invites: seq<Invite>): Originals {
    if invites == [] then originals
    else Unclaimed(a, if Counts(a, invites[0]) then originals - {invites[0].account} else originals, invites[1..])
  }

  /** The invites that counted before and do not any more. */
  function Dropped(a: Account, invited: seq<Invite>, invites: seq<Invite>): set<Address> {
    var left := Unclaimed(a, Indexed(invited), invites);
    set c | c in left && Counts(a, left[c])
  }

  /** The two failures of the second loop do not happen for `c`. */
  predicate Removable(s: State, c: Address, inviter: Address) {
    c in s.accounts && s.accounts[c].enabled && Has(s.accounts[c].inviters, inviter)
  }

  /** The accounts of dropped invites, in the order in which Go happens to visit its map. */
  function Removals(s: State, inviter: Address, order: seq<Address>): (copies: seq<Account>)
    requires forall j :: 0 <= j < |order| ==> Removable(s, order[j], inviter)
    ensures |copies| == |order|
  {
    if order == [] then []
    else
      assert Removable(s, order[0], inviter);
      [Uninvited(s.accounts[order[0]].(address := order[0]), inviter)] + Removals(s, inviter, order[1..])
  }

  /** `order` visits every element of `all` once. */
  ghost predicate Visits(order: seq<Address>, all: set<Address>) {
    (forall c :: c in order <==> c in all) && forall i, j :: 0 <= i < j < |order| ==> order[i] != order[j]
  }

  function SaveAll(s: State, copies: seq<Account>): State
    decreases |copies|
  {
    if copies == [] then s
    else SaveAll(s.(accounts := s.accounts[copies[0].address := copies[0]]), copies[1..])
  }

  /** ReenableWithContent compares with an empty list, so that every invite that counts is news. */
  lemma {:induction false} NothingBefore(s: State, a: Account, invites: seq<Invite>)
    ensures Changed(s, a, map[], invites) == Notified(s, a, invites)
    ensures Unclaimed(a, map[], invites) == map[]
  {
    if invites != [] {
      NothingBefore(s, a, invites[1..]);
      var none: Originals := map[];
      assert none - {invites[0].account} == none;
    }
  }

  // ---- The mirror relation ----------------------------------------------------------------------------

  ghost predicate Distinct(invites: seq<Invite>) {
    forall i, j :: 0 <= i < j < |invites| ==> invites[i].account != invites[j].account
  }

  /** The entries of one account in an inviter list. */
  function EntriesOf(inviters: seq<Inviter>, x: Address): seq<Inviter> {
    if inviters == [] then []
    else (if inviters[0].account == x then [inviters[0]] else []) + EntriesOf(inviters[1..], x)
  }

  function StoredEntries(s: State, c: Address, x: Address): seq<Inviter> {
    if c in s.accounts then EntriesOf(s.accounts[c].inviters, x) else []
  }

  /** The invite of `c` that counts, if there is one. */
  function InviteOf(a: Account, invites: seq<Invite>, c: Address): Option<Invite> {
    if invites == [] then None
    else if invites[0].account == c && Counts(a, invites[0]) then Some(invites[0])
    else InviteOf(a, invites[1..], c)
  }

  /** The entries match the invite: none without one, and a single one with its timestamp and gap otherwise. */
  predicate Matches(entries: seq<Inviter>, invite: Option<Invite>) {
    match invite
    case None => entries == []
    case Some(i) => |entries| == 1 && entries[0].timestamp == i.timestamp && entries[0].lvlGap == i.lvlGap
  }

  /** Every account lists `a` as inviter exactly as the invites that count say. */
  ghost predicate Mirrors(s: State, a: Account, invites: seq<Invite>) {
    forall c :: Matches(StoredEntries(s, c, a.address), InviteOf(a, invites, c))
  }

  /** Accounts that somebody invites are enabled. */
  ghost predicate InvitedAreEnabled(s: State, a: Account) {
    forall c :: StoredEntries(s, c, a.address) != [] ==> s.accounts[c].enabled
  }

  lemma {:induction false} EntriesWith(inviters: seq<Inviter>, i: Inviter, x: Address)
    requires |EntriesOf(inviters, i.account)| <= 1
    ensures x != i.account ==> EntriesOf(WithInviter(inviters, i), x) == EntriesOf(inviters, x)
    ensures
      var entries := EntriesOf(WithInviter(inviters, i), i.account);
      |entries| == 1 && entries[0].timestamp == i.timestamp && entries[0].lvlGap == i.lvlGap
  {
    if inviters != [] {
      var rest := inviters[1..];
      if inviters[0].account == i.account {
        var first := inviters[0].(timestamp := i.timestamp, lvlGap := i.lvlGap);
        assert EntriesOf(inviters, i.account) == [inviters[0]] + EntriesOf(rest, i.account);
        assert ([first] + rest)[0] == first && ([first] + rest)[1..] == rest;
      } else {
        EntriesWith(rest, i, x);
        assert ([inviters[0]] + WithInviter(rest, i))[1..] == WithInviter(rest, i);
      }
    } else {
      assert [i][1..] == [];
    }
  }

  lemma {:induction false} EntriesWithout(inviters: seq<Inviter>, y: Address, x: Address)
    ensures EntriesOf(WithoutInviter(inviters, y), x) == if x == y then [] else EntriesOf(inviters, x)
  {
    if inviters != [] {
      var i, rest, kept := inviters[0], inviters[1..], WithoutInviter(inviters[1..], y);
      EntriesWithout(rest, y, x);
      if i.account == y {
        assert [] + kept == kept && [] + EntriesOf(rest, x) == EntriesOf(rest, x);
      } else {
        assert ([i] + kept)[0] == i && ([i] + kept)[1..] == kept;
      }
    }
  }

  lemma {:induction false} EntriesHas(inviters: seq<Inviter>, x: Address)
    ensures Has(inviters, x) <==> EntriesOf(inviters, x) != []
  {
    if inviters != [] {
      EntriesHas(inviters[1..], x);
      if Has(inviters[1..], x) {
        var j :| 0 <= j < |inviters[1..]| && inviters[1..][j].account == x;
        assert inviters[j + 1].account == x;
      }
      if Has(inviters, x) && inviters[0].account != x {
        var j :| 0 <= j < |inviters| && inviters[j].account == x;
        assert inviters[1..][j - 1].account == x;
      }
      if inviters[0].account == x { assert Has(inviters, x); }
    }
  }

  lemma {:induction false} IndexedFinds(a: Account, invited: seq<Invite>, c: Address)
    requires Distinct(invited)
    ensures c in Indexed(invited) ==> Indexed(invited)[c].account == c
    ensures InviteOf(a, invited, c) == (if c in Indexed(invited) &&
            Counts(a, Indexed(invited)[c]) then Some(Indexed(invited)[c]) else None)
  {
    if invited != [] {
      var n := |invited| - 1;
      var init, last := invited[..n], invited[n];
      assert invited == init + [last];
      IndexedFinds(a, init, c);
      InviteOfSnoc(a, init, last, c);
      if last.account == c { InviteOfAbsent(a, init, c); }
    }
  }

  lemma {:induction false} InviteOfSnoc(a: Account, invites: seq<Invite>, last: Invite, c: Address)
    ensures InviteOf(a, invites + [last], c) ==
            if InviteOf(a, invites, c).Some? then InviteOf(a, invites, c)
            else if last.account == c && Counts(a, last) then Some(last) else None
  {
    if invites == [] {
      assert [] + [last] == [last] && [last][1..] == [];
    } else {
      assert (invites + [last])[1..] == invites[1..] + [last];
      InviteOfSnoc(a, invites[1..], last, c);
    }
  }

  lemma {:induction false} InviteOfAbsent(a: Account, invites: seq<Invite>, c: Address)
    requires forall j :: 0 <= j < |invites| ==> invites[j].account != c
    ensures InviteOf(a, invites, c) == None
  {
    if invites != [] {
      assert invites[0].account != c;
      InviteOfAbsent(a, invites[1..], c);
    }
  }

  /** What the new invites leave in the index. */
  lemma {:induction false} UnclaimedIs(a: Account, originals: Originals, invites: seq<Invite>, c: Address)
    ensures Get(Unclaimed(a, originals, invites), c) ==
            if InviteOf(a, invites, c).Some? then None else Get(originals, c)
  {
    if invites != [] {
      UnclaimedIs(a, if Counts(a, invites[0]) then originals - {invites[0].account} else originals, invites[1..], c);
    }
  }

  /** Dropped are the invites that counted and are not among those that count now. */
  lemma DroppedIs(a: Account, invited: seq<Invite>, invites: seq<Invite>, c: Address)
    requires Distinct(invited)
    ensures c in Dropped(a, invited, invites) <==> InviteOf(a, invited, c).Some? && InviteOf(a, invites, c).None?
  {
    IndexedFinds(a, invited, c);
    UnclaimedIs(a, Indexed(invited), invites, c);
    var left := Unclaimed(a, Indexed(invited), invites);
    assert Get(left, c) == (if InviteOf(a, invites, c).Some? then None else Get(Indexed(invited), c));
  }

  // ---- The copies -------------------------------------------------------------------------------------

  ghost predicate DistinctAddresses(copies: seq<Account>) {
    forall i, j :: 0 <= i < j < |copies| ==> copies[i].address != copies[j].address
  }

  function CopyFor(copies: seq<Account>, c: Address): Option<Account> {
    if copies == [] then None
    else if copies[0].address == c then Some(copies[0])
    else CopyFor(copies[1..], c)
  }

  lemma {:induction false} CopyForNone(copies: seq<Account>, c: Address)
    ensures CopyFor(copies, c) == None <==> forall j :: 0 <= j < |copies| ==> copies[j].address != c
  {
    if copies != [] {
      CopyForNone(copies[1..], c);
      assert forall j :: 0 < j < |copies| ==> copies[j] == copies[1..][j - 1];
    }
  }

  lemma {:induction false} CopyForJoin(p: seq<Account>, q: seq<Account>, c: Address)
    ensures CopyFor(p + q, c) == if CopyFor(p, c).Some? then CopyFor(p, c) else CopyFor(q, c)
  {
    if p == [] {
      assert p + q == q;
    } else {
      assert (p + q)[1..] == p[1..] + q;
      CopyForJoin(p[1..], q, c);
    }
  }

  lemma {:induction false} SaveAllFinds(s: State, copies: seq<Account>, c: Address)
    requires DistinctAddresses(copies)
    ensures Get(SaveAll(s, copies).accounts, c) ==
            if CopyFor(copies, c).Some? then CopyFor(copies, c) else Get(s.accounts, c)
    decreases |copies|
  {
    if copies != [] {
      SaveAllFinds(s.(accounts := s.accounts[copies[0].address := copies[0]]), copies[1..], c);
      CopyForNone(copies[1..], copies[0].address);
    }
  }

  lemma DistinctCons(first: Account, rest: seq<Account>)
    requires DistinctAddresses(rest) && CopyFor(rest, first.address) == None
    ensures DistinctAddresses([first] + rest)
  {
    CopyForNone(rest, first.address);
    assert forall j :: 0 < j < |[first] + rest| ==> ([first] + rest)[j] == rest[j - 1];
  }

  lemma {:induction false} DistinctJoin(p: seq<Account>, q: seq<Account>)
    requires DistinctAddresses(p) && DistinctAddresses(q)
    requires forall j :: 0 <= j < |p| ==> CopyFor(q, p[j].address) == None
    ensures DistinctAddresses(p + q)
  {
    if p == [] {
      assert p + q == q;
    } else {
      assert forall j :: 0 <= j < |p[1..]| ==> p[1..][j] == p[j + 1];
      DistinctJoin(p[1..], q);
      CopyForNone(p[1..], p[0].address);
      CopyForJoin(p[1..], q, p[0].address);
      assert CopyFor(q, p[0].address) == None;
      DistinctCons(p[0], p[1..] + q);
      assert p + q == [p[0]] + (p[1..] + q);
    }
  }

  lemma {:induction false} InviteOfIsFor(a: Account, invites: seq<Invite>, c: Address)
    ensures InviteOf(a, invites, c).Some? ==>
              InviteOf(a, invites, c).value.account == c && Counts(a, InviteOf(a, invites, c).value)
  {
    if invites != [] { InviteOfIsFor(a, invites[1..], c); }
  }

  /** The copy that a changed invite leads to. */
  function News(s: State, a: Account, originals: Originals, invites: seq<Invite>, c: Address): Option<Account> {
    var i := InviteOf(a, invites, c);
    if i.Some? && IsNews(originals, i.value) then Some(Invited(FetchOrNew(s, c), InviterFor(a, i.value))) else None
  }

  lemma NewsAddress(s: State, a: Account, i: Invite)
    ensures Invited(FetchOrNew(s, i.account), InviterFor(a, i)).address == i.account
  {
  }

  lemma {:induction false} ChangedIs(s: State, a: Account, originals: Originals, invites: seq<Invite>, c: Address)
    requires Distinct(invites)
    ensures CopyFor(Changed(s, a, originals, invites), c) == News(s, a, originals, invites, c)
  {
    hide FetchOrNew, Invited, InviterFor;
    if invites != [] {
      var i, rest := invites[0], invites[1..];
      NewsAddress(s, a, i);
      var originals' := if Counts(a, i) then originals - {i.account} else originals;
      ChangedIs(s, a, originals', rest, c);
      InviteOfIsFor(a, rest, c);
      if i.account == c {
        InviteOfAbsent(a, rest, c);
      } else {
        assert Get(originals', c) == Get(originals, c);
      }
      if Counts(a, i) && IsNews(originals, i) {
        CopyForJoin([Invited(FetchOrNew(s, i.account), InviterFor(a, i))], Changed(s, a, originals', rest), c);
      } else if Counts(a, i) {
        assert [] + Changed(s, a, originals', rest) == Changed(s, a, originals', rest);
      }
    }
  }

  lemma {:induction false} ChangedAreDistinct(s: State, a: Account, originals: Originals, invites: seq<Invite>)
    requires Distinct(invites)
    ensures DistinctAddresses(Changed(s, a, originals, invites))
  {
    if invites != [] {
      var i, rest := invites[0], invites[1..];
      var originals' := if Counts(a, i) then originals - {i.account} else originals;
      ChangedAreDistinct(s, a, originals', rest);
      ChangedIs(s, a, originals', rest, i.account);
      InviteOfAbsent(a, rest, i.account);
      if Counts(a, i) && IsNews(originals, i) {
        DistinctCons(Invited(FetchOrNew(s, i.account), InviterFor(a, i)), Changed(s, a, originals', rest));
      } else if Counts(a, i) {
        assert [] + Changed(s, a, originals', rest) == Changed(s, a, originals', rest);
      }
    }
  }

  lemma {:induction false} RemovalsAre(s: State, x: Address, order: seq<Address>, c: Address)
    requires forall j :: 0 <= j < |order| ==> Removable(s, order[j], x)
    ensures CopyFor(Removals(s, x, order), c) ==
            if c in order then Some(Uninvited(s.accounts[c].(address := c), x)) else None
    ensures (forall i, j :: 0 <= i < j < |order| ==> order[i] != order[j]) ==> DistinctAddresses(Removals(s, x, order))
  {
    if order != [] {
      var first, rest := Uninvited(s.accounts[order[0]].(address := order[0]), x), Removals(s, x, order[1..]);
      RemovalsAre(s, x, order[1..], c);
      assert Removals(s, x, order) == [first] + rest;
      CopyForJoin([first], rest, c);
      assert c in order <==> c == order[0] || c in order[1..];
      if forall i, j :: 0 <= i < j < |order| ==> order[i] != order[j] {
        RemovalsAre(s, x, order[1..], order[0]);
        DistinctCons(first, rest);
      }
    }
  }

  // ---- The theorem ------------------------------------------------------------------------------------

  /** Everything UpdateInvited returns. */
  function Returned(s: State, a: Account, invited: seq<Invite>, invites: seq<Invite>, order: seq<Address>): seq<Account>
    requires forall j :: 0 <= j < |order| ==> Removable(s, order[j], a.address)
  {
    Changed(s, a, Indexed(invited), invites) + Removals(s, a.address, order)
  }

  /** If the entries mirror the old invites, the failures of UpdateInvited cannot happen. */
  lemma DroppedAreRemovable(s: State, a: Account, invited: seq<Invite>, invites: seq<Invite>, c: Address)
    requires Distinct(invited) && Mirrors(s, a, invited) && InvitedAreEnabled(s, a) && c in Dropped(a, invited, invites)
    ensures Removable(s, c, a.address)
  {
    DroppedIs(a, invited, invites, c);
    assert Matches(StoredEntries(s, c, a.address), InviteOf(a, invited, c));
    if c in s.accounts { EntriesHas(s.accounts[c].inviters, a.address); }
  }

  lemma ReturnedAreDistinct(s: State, a: Account, invited: seq<Invite>, invites: seq<Invite>, order: seq<Address>)
    requires Distinct(invited) && Distinct(invites) && Visits(order, Dropped(a, invited, invites))
    requires forall j :: 0 <= j < |order| ==> Removable(s, order[j], a.address)
    ensures DistinctAddresses(Returned(s, a, invited, invites, order))
  {
    var p := Changed(s, a, Indexed(invited), invites);
    ChangedAreDistinct(s, a, Indexed(invited), invites);
    if order != [] { RemovalsAre(s, a.address, order, order[0]); }
    forall j | 0 <= j < |p| ensures CopyFor(Removals(s, a.address, order), p[j].address) == None {
      var c := p[j].address;
      CopyForNone(p, c);
      ChangedIs(s, a, Indexed(invited), invites, c);
      DroppedIs(a, invited, invites, c);
      RemovalsAre(s, a.address, order, c);
    }
    DistinctJoin(p, Removals(s, a.address, order));
  }

  /** The stored record of one account after everything returned has been saved. */
  lemma RecordAfter(s: State, a: Account, invited: seq<Invite>, invites: seq<Invite>, order: seq<Address>, c: Address)
    requires Distinct(invited) && Distinct(invites) && Visits(order, Dropped(a, invited, invites))
    requires forall j :: 0 <= j < |order| ==> Removable(s, order[j], a.address)
    ensures InviteOf(a, invited, c).Some? && InviteOf(a, invites, c).None? ==> c in s.accounts
    ensures
      Get(SaveAll(s, Returned(s, a, invited, invites, order)).accounts, c) ==
      if News(s, a, Indexed(invited), invites, c).Some? then News(s, a, Indexed(invited), invites, c)
      else if InviteOf(a, invited, c).Some? && InviteOf(a, invites, c).None?
        then Some(Uninvited(s.accounts[c].(address := c), a.address))
      else Get(s.accounts, c)
  {
    ReturnedAreDistinct(s, a, invited, invites, order);
    SaveAllFinds(s, Returned(s, a, invited, invites, order), c);
    CopyForJoin(Changed(s, a, Indexed(invited), invites), Removals(s, a.address, order), c);
    ChangedIs(s, a, Indexed(invited), invites, c);
    RemovalsAre(s, a.address, order, c);
    DroppedIs(a, invited, invites, c);
    if c in order {
      var j :| 0 <= j < |order| && order[j] == c;
      assert Removable(s, order[j], a.address);
    }
  }

  lemma MirrorAt(s: State, a: Account, invited: seq<Invite>, invites: seq<Invite>, order: seq<Address>, c: Address,
                 y: Address)
    requires Distinct(invited) && Distinct(invites) && Visits(order, Dropped(a, invited, invites))
    requires forall j :: 0 <= j < |order| ==> Removable(s, order[j], a.address)
    requires Mirrors(s, a, invited)
    ensures
      var s' := SaveAll(s, Returned(s, a, invited, invites, order));
      Matches(StoredEntries(s', c, a.address), InviteOf(a, invites, c)) &&
      (y != a.address ==> StoredEntries(s', c, y) == StoredEntries(s, c, y))
  {
    var s' := SaveAll(s, Returned(s, a, invited, invites, order));
    RecordAfter(s, a, invited, invites, order, c);
    assert Matches(StoredEntries(s, c, a.address), InviteOf(a, invited, c));
    IndexedFinds(a, invited, c);
    InviteOfIsFor(a, invites, c);
    hide Returned, SaveAll;
    var i := InviteOf(a, invites, c);
    if News(s, a, Indexed(invited), invites, c).Some? {
      EntriesWith(FetchOrNew(s, c).inviters, InviterFor(a, i.value), y);
    } else if InviteOf(a, invited, c).Some? && i.None? {
      EntriesWithout(s.accounts[c].inviters, a.address, a.address);
      EntriesWithout(s.accounts[c].inviters, a.address, y);
    }
  }

  /** UpdateInvited restores the mirror relation. If the accounts that list `a` were those of its old invites
      that count, neither failure can happen, the returned accounts are different ones, and once they are saved
      the accounts that list `a` are those of the new invites that count, with their timestamps and gaps. The
      entries of every other inviter are untouched. */
  lemma MirrorIsRestored(s: State, a: Account, invited: seq<Invite>, invites: seq<Invite>, order: seq<Address>)
    requires Distinct(invited) && Distinct(invites)
    requires Mirrors(s, a, invited) && InvitedAreEnabled(s, a) && Visits(order, Dropped(a, invited, invites))
    ensures forall j :: 0 <= j < |order| ==> Removable(s, order[j], a.address)
    ensures DistinctAddresses(Returned(s, a, invited, invites, order))
    ensures
      var s' := SaveAll(s, Returned(s, a, invited, invites, order));
      Mirrors(s', a, invites) && forall c, y :: y != a.address ==> StoredEntries(s', c, y) == StoredEntries(s, c, y)
  {
    forall j | 0 <= j < |order| ensures Removable(s, order[j], a.address) {
      assert order[j] in order;
      DroppedAreRemovable(s, a, invited, invites, order[j]);
    }
    ReturnedAreDistinct(s, a, invited, invites, order);
    var s' := SaveAll(s, Returned(s, a, invited, invites, order));
    forall c ensures Matches(StoredEntries(s', c, a.address), InviteOf(a, invites, c)) {
      MirrorAt(s, a, invited, invites, order, c, a.address);
    }
    forall c, y | y != a.address ensures StoredEntries(s', c, y) == StoredEntries(s, c, y) {
      MirrorAt(s, a, invited, invites, order, c, y);
    }
  }
}
