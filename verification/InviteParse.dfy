/** invite/invite.go (Parse): the invites found in a decoded document. The rest of the comparison relies on
    every account being invited once. */
module InviteParse {
  import opened Basics
  import opened DeltaLogs
  import opened Accounts
  import opened UpdatedInvites

  /** A value of the decoded document, as far as Parse tells values apart. */
  datatype Field = Missing | Data(bytes: Bytes) | Number(n: int) | Other

  datatype Raw = NotAMap | Entry(account: Field, timestamp: Field, lvl: Field, lvlgap: Field)

  /** copy into a 20-byte array: longer values are cut, shorter ones padded with zeroes. */
  function ToAddress(bytes: Bytes): (a: Address)
    ensures forall i :: 0 <= i < 20 ==> a[i] == if i < |bytes| then bytes[i] else 0
  {
    if |bytes| >= 20 then bytes[..20] else bytes + seq(20 - |bytes|, _ => 0)
  }

  /** uint64(int) */
  function Unsigned(n: int): (u: Uint64)
    ensures 0 <= n < U64 ==> u == n
    ensures -U64 <= n < 0 ==> u == n + U64
  {
    n % U64
  }

  /** The account an entry is about, unless it is the sender itself. */
  function About(raw: Raw, self: Address): Option<Address> {
    if raw.Entry? && raw.account.Data? && ToAddress(raw.account.bytes) != self
      then Some(ToAddress(raw.account.bytes)) else None
  }

  /** A level that is present but not a number is a panic. */
  predicate Panics(raw: Raw)
    requires raw.Entry?
  {
    (raw.lvl != Missing && !raw.lvl.Number?) || (raw.lvlgap != Missing && !raw.lvlgap.Number?)
  }

  /** "lvlgap" wins over "lvl". */
  function Gap(raw: Raw): nat
    requires raw.Entry?
  {
    if raw.lvlgap.Number? then Unsigned(raw.lvlgap.n) else if raw.lvl.Number? then Unsigned(raw.lvl.n) else 0
  }

  /** The entries from here on, when the accounts in `seen` have been mentioned before. */
  function ParseFrom(raws: seq<Raw>, self: Address, seen: set<Address>): Option<seq<Invite>> {
    if raws == [] then Some([])
    else
      var c := About(raws[0], self);
      if c.None? || c.value in seen then ParseFrom(raws[1..], self, seen)
      else if !raws[0].timestamp.Number? then ParseFrom(raws[1..], self, seen + {c.value})
      else if Panics(raws[0]) then None
      else
        var rest := ParseFrom(raws[1..], self, seen + {c.value});
        if rest.None? then None
        else Some([Invite(c.value, Unsigned(raws[0].timestamp.n), Gap(raws[0]), false)] + rest.value)
  }

  /** invite.Parse; none stands for a panic. */
  method Parse(raws: seq<Raw>, inviterAddress: Address) returns (invites: Option<seq<Invite>>)
    ensures invites == ParseFrom(raws, inviterAddress, {})
    ensures invites.None? <==> exists c :: Unreadable(FirstAbout(raws, inviterAddress, c))
    ensures invites.Some? ==> Readings(raws, inviterAddress, invites.value)
  {
    var found: seq<Invite> := [];
    var uniqueInvites: set<Address> := {};
    ghost var goal := ParseFrom(raws, inviterAddress, {});
    assert raws[0..] == raws;
    PrependNothing(goal);
    for i := 0 to |raws|
      invariant goal == Prepend(found, ParseFrom(raws[i..], inviterAddress, uniqueInvites))
    {
      var raw := raws[i];
      assert raws[i..][0] == raw && raws[i..][1..] == raws[i + 1..];
      if raw.NotAMap? { continue; }
      if raw.account == Missing { continue; }    // "invite missing account"
      if !raw.account.Data? { continue; }        // "invited account appears invalid"
      var account := ToAddress(raw.account.bytes);
      if account == inviterAddress { continue; } // "account cannot invite itself"
      if account in uniqueInvites { continue; }  // "account invited more than once, ignoring"
      uniqueInvites := uniqueInvites + {account};
      if raw.timestamp == Missing { continue; }  // "invite missing timestamp"
      if !raw.timestamp.Number? { continue; }    // "timestamp expects number"
      var invite := Invite(account, Unsigned(raw.timestamp.n), 0, false);
      if raw.lvl != Missing {
        if !raw.lvl.Number? {
          ParsedAll(raws, inviterAddress);
          return None;
        }
        invite := invite.(lvlGap := Unsigned(raw.lvl.n));
      }
      if raw.lvlgap != Missing {
        if !raw.lvlgap.Number? {
          ParsedAll(raws, inviterAddress);
          return None;
        }
        invite := invite.(lvlGap := Unsigned(raw.lvlgap.n));
      }
      PrependMore(found, invite, ParseFrom(raws[i + 1..], inviterAddress, uniqueInvites));
      found := found + [invite];
    }
    assert raws[|raws|..] == [] && found + [] == found;
    invites := Some(found);
    ParsedAll(raws, inviterAddress);
  }

  ghost function Prepend(found: seq<Invite>, rest: Option<seq<Invite>>): Option<seq<Invite>> {
    if rest.None? then None else Some(found + rest.value)
  }

  lemma PrependNothing(rest: Option<seq<Invite>>)
    ensures Prepend([], rest) == rest
  {
    if rest.Some? { assert [] + rest.value == rest.value; }
  }

  lemma PrependMore(found: seq<Invite>, invite: Invite, rest: Option<seq<Invite>>)
    ensures Prepend(found, Prepend([invite], rest)) == Prepend(found + [invite], rest)
  {
    if rest.Some? { assert found + ([invite] + rest.value) == found + [invite] + rest.value; }
  }

  // ---- What is found ----------------------------------------------------------------------------------

  /** The first entry about an account. */
  function FirstAbout(raws: seq<Raw>, self: Address, c: Address): (first: Option<Raw>)
    ensures first.Some? ==> About(first.value, self) == Some(c)
  {
    if raws == [] then None
    else if About(raws[0], self) == Some(c) then Some(raws[0])
    else FirstAbout(raws[1..], self, c)
  }

  ghost predicate Invites(invites: seq<Invite>, c: Address) {
    exists j :: 0 <= j < |invites| && invites[j].account == c
  }

  /** An account is invited once at most, and never the sender. It is invited exactly if the first entry about it
      has a timestamp, which is then the timestamp of the invite: a later entry never makes up for a bad one. */
  lemma {:induction false} ParsedOnce(raws: seq<Raw>, self: Address, seen: set<Address>, c: Address)
    requires ParseFrom(raws, self, seen).Some?
    ensures
      var invites, first := ParseFrom(raws, self, seen).value, FirstAbout(raws, self, c);
      Distinct(invites) && !Invites(invites, self) &&
      (Invites(invites, c) <==> c !in seen && first.Some? && first.value.timestamp.Number?) &&
      (forall j :: 0 <= j < |invites| && invites[j].account == c ==>
         first.Some? && first.value.timestamp.Number? && invites[j].timestamp == Unsigned(first.value.timestamp.n))
  {
    if raws != [] {
      var d, rest := About(raws[0], self), raws[1..];
      if d.None? || d.value in seen {
        ParsedOnce(rest, self, seen, c);
      } else if !raws[0].timestamp.Number? {
        ParsedOnce(rest, self, seen + {d.value}, c);
      } else {
        var first, others := Invite(d.value, Unsigned(raws[0].timestamp.n), Gap(raws[0]), false),
          ParseFrom(rest, self, seen + {d.value}).value;
        ParsedOnce(rest, self, seen + {d.value}, c);
        ParsedOnce(rest, self, seen + {d.value}, d.value);
        InvitesCons(first, others, c);
        InvitesCons(first, others, self);
        assert forall j :: 0 < j < |[first] + others| ==> ([first] + others)[j] == others[j - 1];
        forall j | 0 <= j < |others| ensures others[j].account != d.value { assert !Invites(others, d.value); }
      }
    }
  }

  /** The entry has a time, so that it is an invite, but a level that is not a number. */
  ghost predicate Unreadable(first: Option<Raw>) {
    first.Some? && first.value.Entry? && first.value.timestamp.Number? &&
    ((first.value.lvl != Missing && !first.value.lvl.Number?) ||
     (first.value.lvlgap != Missing && !first.value.lvlgap.Number?))
  }

  /** The invite is what the entry says: its time, and "lvlgap" as the gap, else "lvl", else zero. */
  ghost predicate Reads(invite: Invite, raw: Raw) {
    raw.Entry? && raw.timestamp.Number? && invite.timestamp == Unsigned(raw.timestamp.n) && !invite.active &&
    (raw.lvlgap.Number? ==> invite.lvlGap == Unsigned(raw.lvlgap.n)) &&
    (raw.lvlgap == Missing && raw.lvl.Number? ==> invite.lvlGap == Unsigned(raw.lvl.n)) &&
    (raw.lvlgap == Missing && raw.lvl == Missing ==> invite.lvlGap == 0)
  }

  /** The place of the first entry about an account. */
  function PlaceOf(raws: seq<Raw>, self: Address, c: Address): nat {
    if raws == [] || About(raws[0], self) == Some(c) then 0 else 1 + PlaceOf(raws[1..], self, c)
  }

  /** Every invite is read off the first entry about its account, in the order of these entries. */
  ghost predicate Readings(raws: seq<Raw>, self: Address, invites: seq<Invite>) {
    Distinct(invites) && !Invites(invites, self) &&
    (forall c :: Invites(invites, c) <==>
       FirstAbout(raws, self, c).Some? && FirstAbout(raws, self, c).value.timestamp.Number?) &&
    (forall j :: 0 <= j < |invites| ==>
       FirstAbout(raws, self, invites[j].account).Some? &&
       Reads(invites[j], FirstAbout(raws, self, invites[j].account).value)) &&
    InOrder(raws, self, invites)
  }

  lemma {:induction false} ParsedGap(raws: seq<Raw>, self: Address, seen: set<Address>, j: nat)
    requires ParseFrom(raws, self, seen).Some? && j < |ParseFrom(raws, self, seen).value|
    ensures
      var invite := ParseFrom(raws, self, seen).value[j];
      invite.account !in seen && FirstAbout(raws, self, invite.account).Some? &&
      Reads(invite, FirstAbout(raws, self, invite.account).value)
  {
    var d, rest := About(raws[0], self), raws[1..];
    if d.None? || d.value in seen {
      ParsedGap(rest, self, seen, j);
    } else if !raws[0].timestamp.Number? {
      ParsedGap(rest, self, seen + {d.value}, j);
    } else if j > 0 {
      ParsedGap(rest, self, seen + {d.value}, j - 1);
    }
  }

  ghost predicate InOrder(raws: seq<Raw>, self: Address, invites: seq<Invite>) {
    forall i, j :: 0 <= i < j < |invites| ==>
      PlaceOf(raws, self, invites[i].account) < PlaceOf(raws, self, invites[j].account)
  }

  /** No invite is for an account of `seen`. */
  ghost predicate NoneFor(invites: seq<Invite>, seen: set<Address>) {
    forall j :: 0 <= j < |invites| ==> invites[j].account !in seen
  }

  lemma ParsedIsNew(raws: seq<Raw>, self: Address, seen: set<Address>)
    requires ParseFrom(raws, self, seen).Some?
    ensures NoneFor(ParseFrom(raws, self, seen).value, seen)
  {
    var invites := ParseFrom(raws, self, seen).value;
    forall j | 0 <= j < |invites| ensures invites[j].account !in seen {
      ParsedGap(raws, self, seen, j);
    }
  }

  /** One entry in front moves the places of all other accounts. */
  lemma OrderMoves(raws: seq<Raw>, self: Address, seen: set<Address>, invites: seq<Invite>)
    requires raws != [] && InOrder(raws[1..], self, invites) && NoneFor(invites, seen)
    requires About(raws[0], self).Some? ==> About(raws[0], self).value in seen
    ensures InOrder(raws, self, invites)
    ensures forall j :: 0 <= j < |invites| ==> PlaceOf(raws, self, invites[j].account) > 0
  {
    hide About;
  }

  lemma OrderStarts(raws: seq<Raw>, self: Address, first: Invite, invites: seq<Invite>)
    requires raws != [] && About(raws[0], self) == Some(first.account) && InOrder(raws, self, invites)
    requires forall j :: 0 <= j < |invites| ==> PlaceOf(raws, self, invites[j].account) > 0
    ensures InOrder(raws, self, [first] + invites)
  {
    hide About;
    var all := [first] + invites;
    assert PlaceOf(raws, self, first.account) == 0;
    assert all[0] == first && forall j :: 0 < j < |all| ==> all[j] == invites[j - 1];
  }

  lemma {:induction false} ParsedInOrder(raws: seq<Raw>, self: Address, seen: set<Address>)
    requires ParseFrom(raws, self, seen).Some?
    ensures InOrder(raws, self, ParseFrom(raws, self, seen).value)
  {
    hide InOrder, NoneFor, PlaceOf;
    if raws == [] {
      NothingInOrder(self);
    } else {
      var d, rest := About(raws[0], self), raws[1..];
      var more := if d.Some? then seen + {d.value} else seen;
      if d.None? || d.value in seen {
        ParsedInOrder(rest, self, seen);
        ParsedIsNew(rest, self, seen);
        OrderMoves(raws, self, seen, ParseFrom(rest, self, seen).value);
      } else {
        var others := ParseFrom(rest, self, more).value;
        ParsedInOrder(rest, self, more);
        ParsedIsNew(rest, self, more);
        OrderMoves(raws, self, more, others);
        if raws[0].timestamp.Number? {
          OrderStarts(raws, self, Invite(d.value, Unsigned(raws[0].timestamp.n), Gap(raws[0]), false), others);
        }
      }
    }
  }

  lemma NothingInOrder(self: Address)
    ensures InOrder([], self, [])
  {}

  /** Parsing panics exactly if the first entry about some account is an invite with a bad level. */
  lemma {:induction false} PanicsIff(raws: seq<Raw>, self: Address, seen: set<Address>)
    ensures ParseFrom(raws, self, seen).None? <==> exists c :: c !in seen && Unreadable(FirstAbout(raws, self, c))
  {
    if raws != [] {
      var d, rest := About(raws[0], self), raws[1..];
      if d.None? || d.value in seen {
        PanicsIff(rest, self, seen);
        forall c | c !in seen ensures FirstAbout(raws, self, c) == FirstAbout(rest, self, c) {}
      } else {
        var more := seen + {d.value};
        PanicsIff(rest, self, more);
        forall c | c !in more ensures FirstAbout(raws, self, c) == FirstAbout(rest, self, c) {}
        assert FirstAbout(raws, self, d.value) == Some(raws[0]);
        assert d.value !in seen;
      }
    }
  }

  lemma ParsedAll(raws: seq<Raw>, self: Address)
    ensures ParseFrom(raws, self, {}).None? <==> exists c :: Unreadable(FirstAbout(raws, self, c))
    ensures ParseFrom(raws, self, {}).Some? ==> Readings(raws, self, ParseFrom(raws, self, {}).value)
  {
    PanicsIff(raws, self, {});
    if ParseFrom(raws, self, {}).Some? {
      var invites := ParseFrom(raws, self, {}).value;
      forall c
        ensures Distinct(invites) && !Invites(invites, self)
        ensures Invites(invites, c) <==>
                  FirstAbout(raws, self, c).Some? && FirstAbout(raws, self, c).value.timestamp.Number?
      {
        ParsedOnce(raws, self, {}, c);
      }
      forall j | 0 <= j < |invites|
        ensures FirstAbout(raws, self, invites[j].account).Some?
        ensures Reads(invites[j], FirstAbout(raws, self, invites[j].account).value)
      {
        ParsedGap(raws, self, {}, j);
      }
      ParsedInOrder(raws, self, {});
    }
  }

  lemma InvitesCons(first: Invite, others: seq<Invite>, c: Address)
    ensures Invites([first] + others, c) <==> first.account == c || Invites(others, c)
  {
    var all := [first] + others;
    assert all[0] == first && forall j :: 0 < j < |all| ==> all[j] == others[j - 1];
    if Invites(others, c) {
      var j :| 0 <= j < |others| && others[j].account == c;
      assert all[j + 1].account == c;
    }
  }
}
