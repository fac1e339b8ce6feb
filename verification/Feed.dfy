/** What a node shows to a peer that pages through its delta log
    (clientsession/rpc_bundle_getbysequence.go), and how posts get into it (sigbundle/sigbundle.go). */
module Feeds {
  import opened Basics
  import opened DeltaLogs

  /** Timestamps of posts, and of the active invites, by account. */
  type Times = map<Address, nat>

  ghost predicate HasEvent(h: History, account: Address) {
    exists i :: 0 <= i < |h| && h[i].account == account
  }

  /** The delta log lists an account as not removed exactly when it has a post. */
  ghost predicate InStep(posts: Times, h: History) {
    (forall i :: IsLatest(h, i) ==> (h[i].account in posts <==> !h[i].removed)) &&
    (forall a :: a in posts ==> HasEvent(h, a))
  }

  /** ValidateAndSave accepts a post of an enabled account that is newer than the previous one and
      newer than the account's invite. */
  predicate Acceptable(posts: Times, members: Times, account: Address, timestamp: nat) {
    account in members && (account in posts ==> timestamp > posts[account]) && timestamp > members[account]
  }

  /** Who invited an account, and when. */
  datatype ActiveInvite = ActiveInvite(inviter: Address, timestamp: nat)

  /** Nobody is above himself. */
  ghost predicate Upward(inviters: map<Address, ActiveInvite>, depth: Address -> nat) {
    forall a :: a in inviters ==> depth(inviters[a].inviter) < depth(a)
  }

  /** What can happen at a node while somebody else reads its log: a new post; the same content signed again; an
      account disabled; an account brought back with the content it had, under its old time; and an account
      invited, for the first time or by another active invite. */
  datatype Step =
    | Post(account: Address, timestamp: nat)
    | Repeat(account: Address, timestamp: nat)
    | Disable(account: Address)
    | Reenable(account: Address, invited: nat, timestamp: nat)
    | Reinvite(account: Address, invited: nat)

  /** Posts and active invites after a step, and the removal flag if the step is logged. */
  datatype Effect = Effect(posts: Times, members: Times, logged: Option<bool>)

  /** The effect of a step; one that the node refuses has none. */
  function EffectOf(posts: Times, members: Times, step: Step): Effect {
    var none := Effect(posts, members, None);
    match step
    case Post(a, t) =>
      if Acceptable(posts, members, a, t) then Effect(posts[a := t], members, Some(false)) else none
    case Repeat(a, t) =>
      if a in posts && Acceptable(posts, members, a, t) then Effect(posts, members, Some(false)) else none
    case Disable(a) =>
      if a in posts then Effect(posts - {a}, members - {a}, Some(true)) else Effect(posts, members - {a}, None)
    case Reenable(a, i, t) =>
      if a !in members && t > i then Effect(posts[a := t], members[a := i], Some(false)) else none
    case Reinvite(a, i) =>
      if a in posts && i > posts[a] then Effect(posts - {a}, members[a := i], Some(true))
      else Effect(posts, members[a := i], None)
  }

  /** The events a step adds to the log. */
  function EventsAdded(e: Effect, account: Address): History {
    if e.logged.Some? then [Event(account, e.logged.value)] else []
  }

  /** Posts belong to members, and are no older than their active invites; time zero stands for no post. */
  ghost predicate Belong(posts: Times, members: Times) {
    forall a :: a in posts ==> a in members && posts[a] >= members[a] && posts[a] > 0
  }

  /** A step concerns one account only, and the log stays in step with the posts. */
  lemma EffectKeepsInStep(posts: Times, members: Times, h: History, step: Step)
    requires InStep(posts, h) && Belong(posts, members)
    ensures
      var e := EffectOf(posts, members, step);
      InStep(e.posts, h + EventsAdded(e, step.account)) && Belong(e.posts, e.members) &&
      (e.logged.None? ==> e.posts == posts) &&
      forall a :: a != step.account ==> Get(e.posts, a) == Get(posts, a) && Get(e.members, a) == Get(members, a)
  {
    var e := EffectOf(posts, members, step);
    hide InStep;
    if e.logged.Some? {
      EventKeepsInStep(posts, e.posts, h, Event(step.account, e.logged.value));
    } else {
      assert h + [] == h;
    }
  }

  lemma EventKeepsInStep(posts: Times, posts': Times, h: History, e: Event)
    requires InStep(posts, h)
    requires e.account in posts' <==> !e.removed
    requires forall a :: a != e.account ==> (a in posts' <==> a in posts)
    ensures InStep(posts', h + [e])
  {
    var h' := h + [e];
    forall i | IsLatest(h', i) ensures h'[i].account in posts' <==> !h'[i].removed { LatestAfter(h, e, i); }
    forall a | a in posts' ensures HasEvent(h', a) {
      if a == e.account {
        assert h'[|h|].account == a;
      } else {
        var i :| 0 <= i < |h| && h[i].account == a;
        assert h'[i].account == a;
      }
    }
  }

  /** messages.SequenceListItem */
  datatype Item = Item(seqNo: int, account: Address, timestamp: nat, removed: bool)

  ghost predicate ItemOf(item: Item, row: DeltaRow, posts: Times) {
    item.seqNo == row.seqNo && item.account == row.account && item.removed == row.removed &&
    (!row.removed ==> row.account in posts && item.timestamp == posts[row.account])
  }

  /** The part of a node that peers read: its posts, its members and its log. */
  class Feed {
    const log: DeltaLog
    var posts: Times
    var members: Times

    /** The active invite of every account, fixed here, with no account above itself. */
    const inviters: map<Address, ActiveInvite>
    ghost const depth: Address -> nat

    constructor (log: DeltaLog, inviters: map<Address, ActiveInvite>, ghost depth: Address -> nat)
      requires log.Valid() && log.history == []
      requires Upward(inviters, depth)
      ensures this.log == log && this.inviters == inviters && Valid() && posts == map[] && members == map[]
    {
      this.log, posts, members := log, map[], map[];
      this.inviters, this.depth := inviters, depth;
    }

    ghost predicate Valid()
      reads this, log
    {
      log.Valid() && InStep(posts, log.history) && Belong(posts, members) && Upward(inviters, depth)
    }

    /** The acceptance and commit part of ValidateAndSave. */
    method Accept(account: Address, timestamp: nat) returns (ok: bool)
      requires Valid() && |log.history| + 1 < U64
      modifies this`posts, log
      ensures Valid()
      ensures ok <==> Acceptable(old(posts), members, account, timestamp)
      ensures !ok ==> posts == old(posts) && log.history == old(log.history)
      ensures ok ==> posts == old(posts)[account := timestamp] &&
                     log.history == old(log.history) + [Event(account, false)]
    {
      if account !in members {
        return false;  // "account not found"
      }
      if account in posts && timestamp <= posts[account] {
        return false;  // "timestamp must be more recent than previous"
      }
      if timestamp <= members[account] {
        return false;  // "timestamp must be more recent than invite"
      }
      EventKeepsInStep(posts, posts[account := timestamp], log.history, Event(account, false));
      var _ := log.Update(account, false);
      posts := posts[account := timestamp];
      ok := true;
    }

    /** One change at the node. A disabled account has no post and no invite any more; a post that is accepted is
        there with its time; the same content again moves nothing but the log; an account comes back with the
        post it had; a newer invite is noted, and drops the post that is older. */
    method Advance(step: Step)
      requires Valid() && |log.history| + 1 < U64
      modifies this, log
      ensures Valid()
      ensures step.Disable? ==>
                step.account !in posts && step.account !in members &&
                log.history == old(log.history) + if step.account in old(posts) then [Event(step.account, true)] else []
      ensures step.Post? ==>
                members == old(members) &&
                if Acceptable(old(posts), old(members), step.account, step.timestamp)
                then Get(posts, step.account) == Some(step.timestamp) &&
                     log.history == old(log.history) + [Event(step.account, false)]
                else posts == old(posts) && log.history == old(log.history)
      ensures step.Repeat? ==>
                posts == old(posts) && members == old(members) &&
                log.history == old(log.history) +
                               if step.account in posts && step.timestamp > posts[step.account]
                               then [Event(step.account, false)] else []
      ensures step.Reenable? ==>
                if step.account !in old(members) && step.timestamp > step.invited
                then Get(posts, step.account) == Some(step.timestamp) &&
                     Get(members, step.account) == Some(step.invited) &&
                     log.history == old(log.history) + [Event(step.account, false)]
                else posts == old(posts) && members == old(members) && log.history == old(log.history)
      ensures step.Reinvite? ==>
                Get(members, step.account) == Some(step.invited) &&
                if step.account in old(posts) && step.invited > old(posts)[step.account]
                then step.account !in posts && log.history == old(log.history) + [Event(step.account, true)]
                else Get(posts, step.account) == Get(old(posts), step.account) && log.history == old(log.history)
      ensures forall a :: a != step.account ==>
                Get(posts, a) == Get(old(posts), a) && Get(members, a) == Get(old(members), a)
      ensures
        var e := EffectOf(old(posts), old(members), step);
        posts == e.posts && members == e.members && log.history == old(log.history) + EventsAdded(e, step.account)
    {
      hide InStep;
      EffectKeepsInStep(posts, members, log.history, step);
      var e := EffectOf(posts, members, step);
      if e.logged.Some? {
        var _ := log.Update(step.account, e.logged.value);
      }
      posts, members := e.posts, e.members;
    }

    /** bundle_getBySequence: one page of the log with current timestamps. The failure for a listed
        account that cannot be found is unreachable. */
    method BundleGetBySequence(start: Uint64) returns (list: seq<Item>)
      requires Valid()
      ensures ghost var rows := First(RowsFrom(log.history, start, true), PAGE_SIZE);
              |list| == |rows| && forall i :: 0 <= i < |rows| ==> ItemOf(list[i], rows[i], posts)
    {
      hide RowsFrom, InStep, IsLatest, IsRow;
      var logItems := log.GetBatch(start, true);
      list := [];
      for i := 0 to |logItems|
        invariant |list| == i && forall j :: 0 <= j < i ==> ItemOf(list[j], logItems[j], posts)
      {
        var row := logItems[i];
        ListedRow(log.history, posts, start, row);
        if row.removed {
          list := list + [Item(row.seqNo, row.account, 0, true)];
        } else {
          if row.account !in members {
            assert false;  // "sequence account not found in db"
          }
          list := list + [Item(row.seqNo, row.account, posts[row.account], false)];
        }
      }
    }
  }

  ghost function RowAt(h: History, n: int): DeltaRow
    requires 1 <= n <= |h|
  {
    DeltaRow(n, h[n - 1].account, h[n - 1].removed)
  }

  lemma {:induction false} RowsAreRows(h: History, s: nat, row: DeltaRow)
    ensures row in RowsFrom(h, s, true) <==> s <= row.seqNo <= |h| && IsRow(h, row.seqNo) && row == RowAt(h, row.seqNo)
    decreases |h| + 1 - s
  {
    hide RowsFrom, IsRow;
    if s > |h| {
      RowsOver(h, s, true);
    } else {
      RowsStep(h, s, true);
      RowsAreRows(h, s + 1, row);
    }
  }

  /** A listed row that is not a removal has a post. */
  lemma ListedRow(h: History, posts: Times, s: nat, row: DeltaRow)
    requires InStep(posts, h) && row in RowsFrom(h, s, true)
    ensures row.removed <==> row.account !in posts
  {
    hide RowsFrom;
    RowsAreRows(h, s, row);
  }
}
