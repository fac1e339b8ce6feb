/** clientsession/swap_sequence.go, startsync.go and rpc_sync_finished.go: paging through a remote log
    that may keep moving, and the two-peer synchronisation built on it. */
module Sessions {
  import opened Basics
  import opened DeltaLogs
  import opened MerkleTree
  import opened Merkleheads
  import opened Feeds
  import opened Pulls

  // ---- A node ---------------------------------------------------------------------------------------

  class Node {
    const feed: Feed
    const merkle: Merklehead

    /** The tree the merklehead stands for. */
    ghost var tree: Head

    constructor (feed: Feed, merkle: Merklehead)
      requires feed.Valid() && feed.posts == map[]
      requires merkle.Valid() && merkle.head == None
      ensures this.feed == feed && this.merkle == merkle && tree == None && Valid()
    {
      this.feed, this.merkle, tree := feed, merkle, None;
    }

    ghost function Repr(): set<object> {
      {this, feed, feed.log, merkle, merkle.store}
    }

    ghost predicate Valid()
      reads Repr()
    {
      feed.Valid() && merkle.Valid() && merkle.Shows(tree) && GoodHead(tree) && Indexed(tree, feed.posts)
    }

    ghost function Contents(): Content
      reads this, feed, feed.log
    {
      Content(feed.log.history, feed.posts, tree)
    }

    /** A new post: the log, the account and the merklehead move together. */
    method Publish(account: Address, timestamp: nat) returns (ok: bool)
      requires Valid() && |feed.log.history| + 1 < U64
      modifies Repr()
      ensures Valid() && feed.members == old(feed.members)
      ensures ok <==> Acceptable(old(feed.posts), feed.members, account, timestamp)
      ensures Contents() == if ok then With(old(Contents()), Taken(account, timestamp)) else old(Contents())
      ensures if ok then merkle.head.Some? else merkle.head == old(merkle.head)
    {
      hide AddHead, Indexed, GoodHead, Feed.Valid, Merklehead.Valid, Merklehead.Shows, Nibbles, Stored, WellFormed,
           Bounded, Compaction, InStep;
      NibblesInvert(account, []);
      PostIndexed(tree, feed.posts, account, timestamp);
      ok := feed.Accept(account, timestamp);
      if ok {
        merkle.Add(Nibbles(account), timestamp, tree);
        tree := AddHead(tree, Nibbles(account), timestamp);
      }
    }
  }

  // ---- What a pull does to the posts of the puller ----------------------------------------------------

  /** Every post of `q` is an old post of `p` or a newer one taken over from `from`. */
  ghost predicate TakenFrom(p: Times, q: Times, from: Times) {
    forall a {:trigger Get(q, a)} ::
      Get(q, a) == Get(p, a) || (Get(q, a) == Get(from, a) && Fresher(p, from, a))
  }

  lemma TakenFromStep(p: Times, q: Times, from: Times, account: Address)
    requires TakenFrom(p, q, from) && account in from && (account in q ==> from[account] > q[account])
    ensures TakenFrom(p, q[account := from[account]], from)
  {
    var q' := q[account := from[account]];
    forall a ensures Get(q', a) == Get(p, a) || (Get(q', a) == Get(from, a) && Fresher(p, from, a)) {
      assert Get(q, a) == Get(p, a) || (Get(q, a) == Get(from, a) && Fresher(p, from, a));
    }
  }

  lemma TakenFromKeeps(p: Times, q: Times, from: Times, theirs: Times, account: Address)
    requires TakenFrom(p, q, from) && AtLeastAsNew(p, theirs, account)
    ensures AtLeastAsNew(q, theirs, account)
  {
    assert Get(q, account) == Get(p, account) || (Get(q, account) == Get(from, account) && Fresher(p, from, account));
  }

  // ---- The session ----------------------------------------------------------------------------------

  class Session {
    var lastSyncSequenceNo: Uint64
    var remoteMerklehead: Option<Multihash>
    const weInitiated: bool
    var hasSynced: bool

    constructor (weInitiated: bool, lastSyncSequenceNo: Uint64, remoteMerklehead: Option<Multihash>)
      ensures this.weInitiated == weInitiated && this.lastSyncSequenceNo == lastSyncSequenceNo
      ensures this.remoteMerklehead == remoteMerklehead && !hasSynced
    {
      this.weInitiated, this.lastSyncSequenceNo := weInitiated, lastSyncSequenceNo;
      this.remoteMerklehead, hasSynced := remoteMerklehead, false;
    }
  }

  // ---- Saving one account ---------------------------------------------------------------------------------

  /** The time of the own post; zero without one. */
  function Known(p: Times, a: Address): nat {
    if a in p then p[a] else 0
  }

  /** The account that a call for `account` comes to when missing inviters are looked up: the first member among
      the account and its active inviters, asked about with the time of the invite it gave. */
  ghost function FirstMember(members: Times, inviters: map<Address, ActiveInvite>, depth: Address -> nat,
                             account: Address, timestamp: nat): Option<Taken>
    requires Upward(inviters, depth)
    decreases depth(account)
  {
    if account in members then Some(Taken(account, timestamp))
    else if account !in inviters then None
    else FirstMember(members, inviters, depth, inviters[account].inviter, inviters[account].timestamp)
  }

  /** A chain of active inviters of which only the last may be a member. */
  ghost predicate Leads(members: Times, inviters: map<Address, ActiveInvite>, chain: seq<Address>) {
    chain != [] && forall i :: 0 <= i < |chain| - 1 ==>
      chain[i] !in members && chain[i] in inviters && inviters[chain[i]].inviter == chain[i + 1]
  }

  /** The first member is where every chain ends that cannot be continued. */
  lemma {:induction false} FirstMemberIs(members: Times, inviters: map<Address, ActiveInvite>, depth: Address -> nat,
                                         timestamp: nat, chain: seq<Address>)
    requires Upward(inviters, depth) && Leads(members, inviters, chain)
    ensures
      var n := |chain| - 1;
      (chain[n] in members ==>
         FirstMember(members, inviters, depth, chain[0], timestamp) ==
         Some(Taken(chain[n], if n == 0 then timestamp else inviters[chain[n - 1]].timestamp))) &&
      (chain[n] !in members && chain[n] !in inviters ==>
         FirstMember(members, inviters, depth, chain[0], timestamp) == None)
    decreases |chain|
  {
    if |chain| > 1 {
      assert chain[0] !in members && inviters[chain[0]].inviter == chain[0 + 1];
      var rest := chain[1..];
      forall i | 0 <= i < |rest| - 1
        ensures rest[i] !in members && rest[i] in inviters && inviters[rest[i]].inviter == rest[i + 1]
      {
        assert chain[i + 1] !in members && inviters[chain[i + 1]].inviter == chain[i + 1 + 1];
      }
      FirstMemberIs(members, inviters, depth, inviters[chain[0]].timestamp, rest);
    }
  }

  /** Saving can succeed only for a member: its post is no news, or it can be accepted. */
  ghost predicate Savable(p: Times, members: Times, theirs: Times, account: Address, timestamp: nat) {
    account in members &&
    (timestamp <= Known(p, account) ||
     (account in theirs && theirs[account] > Known(p, account) && theirs[account] > members[account]))
  }

  /** What is taken over on behalf of an account that leads to this member. */
  function TakenFor(p: Times, members: Times, theirs: Times, member: Option<Taken>): seq<Taken> {
    if member.Some? && member.value.account in members && member.value.account in theirs &&
       member.value.timestamp > Known(p, member.value.account) &&
       theirs[member.value.account] > Known(p, member.value.account) &&
       theirs[member.value.account] > members[member.value.account]
    then [Taken(member.value.account, theirs[member.value.account])] else []
  }

  /** These posts of the other side are newer than the invites known here. */
  ghost predicate Admitted(taken: seq<Taken>, members: Times, theirs: Times) {
    forall i :: 0 <= i < |taken| ==>
      taken[i].account in members && Get(theirs, taken[i].account) == Some(taken[i].timestamp) &&
      taken[i].timestamp > members[taken[i].account]
  }

  /** SaveAccountPlusMissingInviters: nothing to do unless the remote post is newer; an account that is not
      known here has its inviter saved first. The invites themselves stay as they are, so that the account is
      then still refused; but the post of the first member up the chain has been taken over, if it is acceptable
      and the invite it gave is newer than the post known here. */
  method SaveAccount(local: Node, remote: Feed, account: Address, timestamp: nat)
    returns (success: bool, ghost taken: seq<Taken>)
    requires local.Valid() && remote.Valid() && |local.feed.log.history| + 2 < U64
    requires remote !in local.Repr() && remote.log !in local.Repr()
    modifies local.Repr()
    ensures local.Valid() && local.feed.members == old(local.feed.members)
    ensures local.Contents() == WithAll(old(local.Contents()), taken) && |taken| <= 1
    ensures success <==> Savable(old(local.feed.posts), local.feed.members, remote.posts, account, timestamp)
    ensures
      var member := FirstMember(local.feed.members, remote.inviters, remote.depth, account, timestamp);
      taken == TakenFor(old(local.feed.posts), local.feed.members, remote.posts, member)
    ensures Admitted(taken, local.feed.members, remote.posts)
    ensures account !in local.feed.members && account !in remote.inviters ==>
              local.Contents() == old(local.Contents()) && local.merkle.head == old(local.merkle.head)
    ensures TakenFrom(old(local.feed.posts), local.feed.posts, remote.posts)
    ensures success && (account in remote.posts ==> timestamp == remote.posts[account]) ==>
              AtLeastAsNew(local.feed.posts, remote.posts, account)
    ensures IsWelcome(remote.posts, local.feed.members, account) && timestamp == remote.posts[account] ==>
              success && taken == NewsFor(old(local.feed.posts), remote.posts, account)
    decreases remote.depth(account)
  {
    hide TakenFrom, Node.Valid, InStep, RowsFrom, WithAll, AddHead, Nibbles;
    ghost var c := local.Contents();
    taken := [];
    WithNothing(c);
    NothingTaken(c.posts, remote.posts);
    BelongHere(local);
    BelongThere(remote);
    if account in local.feed.members {
      var known := if account in local.feed.posts then local.feed.posts[account] else 0;
      if timestamp <= known {
        return true, [];
      }
    } else {
      if account !in remote.inviters {
        return false, [];  // "active inviter details not found, skipping"
      }
      var active := remote.inviters[account];
      var inviterSaved;
      inviterSaved, taken := SaveAccount(local, remote, active.inviter, active.timestamp);
      WithAllMoves(c, taken);
      if !inviterSaved {
        return false, taken;
      }
    }
    if account !in remote.posts {
      return false, taken;
    }
    ghost var t, p := Taken(account, remote.posts[account]), local.feed.posts;
    success := local.Publish(account, remote.posts[account]);
    if success {
      WithOne(c, [], t);
      TakenFromStep(c.posts, p, remote.posts, account);
      taken := [t];
    }
  }

  lemma BelongThere(b: Feed)
    requires b.Valid()
    ensures Belong(b.posts, b.members) && Upward(b.inviters, b.depth)
  {
  }

  /** Whoever has a post is a member. */
  lemma BelongHere(a: Node)
    requires a.Valid()
    ensures Belong(a.feed.posts, a.feed.members)
  {
  }

  /** The other side's post of an account is acceptable here: the account is a member and the post is newer
      than the invite. */
  ghost predicate IsWelcome(posts: Times, members: Times, a: Address) {
    a in posts && a in members && posts[a] > members[a]
  }

  ghost predicate Welcome(posts: Times, members: Times) {
    forall a :: a in posts ==> IsWelcome(posts, members, a)
  }

  /** The delivered rows that carry a post are matched by the puller's own posts. */
  ghost predicate Matched(mine: Times, theirs: Times, rows: seq<DeltaRow>) {
    forall i :: 0 <= i < |rows| && !rows[i].removed ==> AtLeastAsNew(mine, theirs, rows[i].account)
  }

  lemma MatchedMore(p: Times, q: Times, theirs: Times, rows: seq<DeltaRow>, row: DeltaRow)
    requires Matched(p, theirs, rows) && TakenFrom(p, q, theirs)
    requires !row.removed ==> AtLeastAsNew(q, theirs, row.account)
    ensures Matched(q, theirs, rows + [row])
  {
    forall i | 0 <= i < |rows| && !rows[i].removed ensures AtLeastAsNew(q, theirs, rows[i].account) {
      TakenFromKeeps(p, q, theirs, theirs, rows[i].account);
    }
  }

  lemma TakenTwice(p: Times, q: Times, r: Times, from: Times)
    requires TakenFrom(p, q, from) && TakenFrom(q, r, from)
    ensures TakenFrom(p, r, from)
  {
    forall a ensures Get(r, a) == Get(p, a) || (Get(r, a) == Get(from, a) && Fresher(p, from, a)) {
      assert Get(q, a) == Get(p, a) || (Get(q, a) == Get(from, a) && Fresher(p, from, a));
      assert Get(r, a) == Get(q, a) || (Get(r, a) == Get(from, a) && Fresher(q, from, a));
    }
  }

  /** A listed row can be dealt with: it is a removal, or its post can be saved. */
  ghost predicate CanDeal(p: Times, members: Times, theirs: Times, row: DeltaRow) {
    row.removed || (row.account in theirs && Savable(p, members, theirs, row.account, theirs[row.account]))
  }

  ghost predicate CanDealAll(p: Times, members: Times, theirs: Times, rows: seq<DeltaRow>) {
    forall i :: 0 <= i < |rows| ==> CanDeal(p, members, theirs, rows[i])
  }

  /** No post can be saved for any of these rows. */
  ghost predicate CannotDeal(p: Times, members: Times, theirs: Times, rows: seq<DeltaRow>) {
    forall i :: 0 <= i < |rows| ==>
      !rows[i].removed && rows[i].account in theirs && !CanDeal(p, members, theirs, rows[i])
  }

  lemma CanDealMore(p: Times, members: Times, theirs: Times, rows: seq<DeltaRow>, row: DeltaRow)
    ensures CanDealAll(p, members, theirs, rows + [row]) <==>
            CanDealAll(p, members, theirs, rows) && CanDeal(p, members, theirs, row)
  {
    var all := rows + [row];
    assert all[|rows|] == row && forall i :: 0 <= i < |rows| ==> all[i] == rows[i];
  }

  /** Rows of other accounts before it make no difference to a row. */
  lemma DealtAsBefore(c: Content, members: Times, theirs: Times, rows: seq<DeltaRow>, row: DeltaRow)
    requires OneEach(rows + [row])
    ensures
      var q := WithAll(c, Wanted(c.posts, theirs, rows)).posts;
      Get(q, row.account) == Get(c.posts, row.account) &&
      (CanDeal(q, members, theirs, row) <==> CanDeal(c.posts, members, theirs, row))
  {
    hide WithAll, Wanted, OneEach;
    LastIsNew(rows, row);
    OthersStay(c, c.posts, theirs, rows, row.account);
  }

  /** What the post of a savable row adds. */
  lemma SavableIsNews(p: Times, members: Times, theirs: Times, belong: Times, a: Address)
    requires Belong(theirs, belong) && a in theirs && Savable(p, members, theirs, a, theirs[a])
    ensures TakenFor(p, members, theirs, Some(Taken(a, theirs[a]))) == NewsFor(p, theirs, a)
  {}

  /** What the failing row of a page adds: the post of an inviter that is a member. */
  ghost function ForFailed(c: Content, members: Times, remote: Feed, delivered: seq<DeltaRow>,
                           failed: seq<DeltaRow>): seq<Taken>
    requires Upward(remote.inviters, remote.depth)
    reads remote
  {
    if failed == [] || failed[0].account !in remote.posts then []
    else
      var q := WithAll(c, Wanted(c.posts, remote.posts, delivered)).posts;
      TakenFor(q, members, remote.posts,
               FirstMember(members, remote.inviters, remote.depth, failed[0].account, remote.posts[failed[0].account]))
  }

  /** The effect of saving the post of one more row. */
  lemma RowSaved(c: Content, members: Times, remote: Feed, delivered: seq<DeltaRow>, row: DeltaRow, t: seq<Taken>)
    requires remote.Valid() && OneEach(delivered + [row]) && !row.removed && row.account in remote.posts
    requires CanDealAll(c.posts, members, remote.posts, delivered)
    requires
      var q := WithAll(c, Wanted(c.posts, remote.posts, delivered)).posts;
      Savable(q, members, remote.posts, row.account, remote.posts[row.account]) &&
      t == TakenFor(q, members, remote.posts, Some(Taken(row.account, remote.posts[row.account])))
    ensures CanDealAll(c.posts, members, remote.posts, delivered + [row])
    ensures Wanted(c.posts, remote.posts, delivered) + t == Wanted(c.posts, remote.posts, delivered + [row])
  {
    hide WithAll, Wanted, OneEach, NewsFor, TakenFor, Savable, Belong, Feed.Valid;
    var q := WithAll(c, Wanted(c.posts, remote.posts, delivered)).posts;
    BelongThere(remote);
    CanDealMore(c.posts, members, remote.posts, delivered, row);
    DealtAsBefore(c, members, remote.posts, delivered, row);
    SavableIsNews(q, members, remote.posts, remote.members, row.account);
    OneMoreRow(c, remote.posts, delivered, row, t);
  }

  lemma RowRemoved(c: Content, members: Times, theirs: Times, delivered: seq<DeltaRow>, row: DeltaRow)
    requires row.removed && CanDealAll(c.posts, members, theirs, delivered)
    ensures CanDealAll(c.posts, members, theirs, delivered + [row])
    ensures Wanted(c.posts, theirs, delivered + [row]) == Wanted(c.posts, theirs, delivered)
  {
    hide WithAll, Wanted;
    CanDealMore(c.posts, members, theirs, delivered, row);
    WantedStep(c, c.posts, theirs, delivered, row);
  }

  lemma RowFailed(c: Content, members: Times, theirs: Times, delivered: seq<DeltaRow>, row: DeltaRow)
    requires OneEach(delivered + [row]) && !row.removed && row.account in theirs
    requires !Savable(WithAll(c, Wanted(c.posts, theirs, delivered)).posts, members, theirs, row.account,
                      theirs[row.account])
    ensures CannotDeal(c.posts, members, theirs, [row])
  {
    hide WithAll, Wanted, OneEach, Savable;
    DealtAsBefore(c, members, theirs, delivered, row);
  }

  lemma FirstIsItself(members: Times, inviters: map<Address, ActiveInvite>, depth: Address -> nat, account: Address,
                      timestamp: nat)
    requires Upward(inviters, depth) && account in members
    ensures FirstMember(members, inviters, depth, account, timestamp) == Some(Taken(account, timestamp))
  {}

  lemma SavableIsMember(p: Times, members: Times, theirs: Times, account: Address, timestamp: nat)
    ensures Savable(p, members, theirs, account, timestamp) ==> account in members
  {}

  /** The rows `delivered` have been dealt with, which took over exactly the posts `taken`. */
  ghost predicate Dealt(c: Content, members: Times, theirs: Times, mine: Times, delivered: seq<DeltaRow>,
                        taken: seq<Taken>) {
    TakenFrom(c.posts, mine, theirs) && Matched(mine, theirs, delivered) &&
    CanDealAll(c.posts, members, theirs, delivered) && taken == Wanted(c.posts, theirs, delivered) &&
    Admitted(taken, members, theirs)
  }

  /** They have, and saving the post of the next row has failed. */
  ghost predicate DealtThenFailed(c: Content, members: Times, remote: Feed, mine: Times, delivered: seq<DeltaRow>,
                                  row: DeltaRow, taken: seq<Taken>)
    requires Upward(remote.inviters, remote.depth)
    reads remote
  {
    TakenFrom(c.posts, mine, remote.posts) && Matched(mine, remote.posts, delivered) &&
    CanDealAll(c.posts, members, remote.posts, delivered) && CannotDeal(c.posts, members, remote.posts, [row]) &&
    taken == Wanted(c.posts, remote.posts, delivered) + ForFailed(c, members, remote, delivered, [row]) &&
    !Welcome(remote.posts, members) && Admitted(taken, members, remote.posts)
  }

  lemma RemovalDealt(c: Content, members: Times, theirs: Times, mine: Times, delivered: seq<DeltaRow>, row: DeltaRow,
                     taken: seq<Taken>)
    requires Dealt(c, members, theirs, mine, delivered, taken) && row.removed
    ensures Dealt(c, members, theirs, mine, delivered + [row], taken)
  {
    hide WithAll, Wanted, Matched, TakenFrom, CanDealAll;
    NothingTaken(mine, theirs);
    MatchedMore(mine, mine, theirs, delivered, row);
    RowRemoved(c, members, theirs, delivered, row);
  }

  /** The post of one more row of a page. */
  method SaveListed(local: Node, remote: Feed, account: Address, timestamp: nat, ghost c: Content,
                    ghost taken: seq<Taken>, ghost delivered: seq<DeltaRow>, ghost row: DeltaRow)
    returns (success: bool, ghost t: seq<Taken>)
    requires local.Valid() && remote.Valid() && |local.feed.log.history| + 2 < U64
    requires remote !in local.Repr() && remote.log !in local.Repr()
    requires row.account == account && !row.removed && account in remote.posts && timestamp == remote.posts[account]
    requires OneEach(delivered + [row]) && local.Contents() == WithAll(c, taken)
    requires Dealt(c, local.feed.members, remote.posts, local.feed.posts, delivered, taken)
    modifies local.Repr()
    ensures local.Valid() && local.feed.members == old(local.feed.members)
    ensures local.Contents() == WithAll(c, taken + t) && |local.feed.log.history| == |c.log| + |taken + t| && |t| <= 1
    ensures success ==>
              Dealt(c, local.feed.members, remote.posts, local.feed.posts, delivered + [row], taken + t)
    ensures Upward(remote.inviters, remote.depth) &&
            (!success ==>
              DealtThenFailed(c, local.feed.members, remote, local.feed.posts, delivered, row, taken + t))
  {
    hide RowsFrom, TakenFrom, Node.Valid, Feed.Valid, AtLeastAsNew, InStep, WithAll, Wanted, NewsFor, OneEach, Belong,
         Savable, TakenFor, ForFailed, FirstMember, CanDealAll, CannotDeal, Matched, Welcome, IsWelcome, Admitted;
    ghost var before := local.feed.posts;
    BelongThere(remote);
    success, t := SaveAccount(local, remote, account, timestamp);
    TakenTwice(c.posts, before, local.feed.posts, remote.posts);
    WithMore(c, taken, t);
    WithAllMoves(c, taken + t);
    BothAdmitted(taken, t, local.feed.members, remote.posts);
    if success {
      MatchedMore(before, local.feed.posts, remote.posts, delivered, row);
      SavableIsMember(before, local.feed.members, remote.posts, account, timestamp);
      FirstIsItself(local.feed.members, remote.inviters, remote.depth, account, timestamp);
      RowSaved(c, local.feed.members, remote, delivered, row, t);
    } else {
      MatchedStays(before, local.feed.posts, remote.posts, delivered);
      WelcomeIsSavable(before, local.feed.members, remote.posts, account);
      RowFailed(c, local.feed.members, remote.posts, delivered, row);
      ForFailedIs(c, local.feed.members, remote, delivered, row);
    }
  }

  /** doSequenceSwapBatch: fetch one page and save its posts, stopping at the first that cannot be saved.
      `delivered` are the rows dealt with; the failing row, if any, comes right after them. A page that
      cannot be fetched is like an empty one. Which rows can be dealt with, and which posts are taken over, is
      decided by the state before. */
  method DoSequenceSwapBatch(local: Node, remote: Feed, start: Uint64, fetched: bool)
    returns (lastSeqNo: int, delivered: seq<DeltaRow>, failed: seq<DeltaRow>, ghost taken: seq<Taken>)
    requires local.Valid() && remote.Valid() && remote !in local.Repr() && remote.log !in local.Repr()
    requires |local.feed.log.history| + PAGE_SIZE + 1 < U64
    modifies local.Repr()
    ensures local.Valid() && local.feed.members == old(local.feed.members)
    ensures local.Contents() == WithAll(old(local.Contents()), taken) && |taken| <= |delivered| + |failed|
    ensures TakenFrom(old(local.feed.posts), local.feed.posts, remote.posts)
    ensures Matched(local.feed.posts, remote.posts, delivered)
    ensures fetched ==>
              Processed(remote.log.history, start, remote.posts, local.feed.posts, lastSeqNo, delivered, failed)
    ensures !fetched ==> lastSeqNo == start && delivered == [] && failed == []
    ensures CanDealAll(old(local.feed.posts), local.feed.members, remote.posts, delivered)
    ensures CannotDeal(old(local.feed.posts), local.feed.members, remote.posts, failed)
    ensures Admitted(taken, local.feed.members, remote.posts)
    ensures Upward(remote.inviters, remote.depth) &&
            taken == Wanted(old(local.feed.posts), remote.posts, delivered) +
                     ForFailed(old(local.Contents()), local.feed.members, remote, delivered, failed)
    ensures Welcome(remote.posts, local.feed.members) ==>
              failed == [] && taken == Wanted(old(local.feed.posts), remote.posts, delivered)
  {
    hide RowsFrom, TakenFrom, Node.Valid, Feed.Valid, InStep, WithAll, Wanted, OneEach, Upward, ForFailed, CanDealAll,
         CannotDeal, Matched, Welcome, Processed, ItemOf, Dealt, DealtThenFailed, Admitted;
    ghost var c := local.Contents();
    lastSeqNo, delivered, failed, taken := start, [], [], [];
    var list: seq<Item> := [];
    ghost var rows := [];
    if fetched {
      list := remote.BundleGetBySequence(start);
      rows := First(RowsFrom(remote.log.history, start, true), PAGE_SIZE);
    }
    PageOneEach(remote.log.history, start, rows);
    NothingDealt(c, local.feed.members, remote.posts);
    for i := 0 to |list|
      invariant local.Valid() && remote.Valid() && local.feed.members == old(local.feed.members)
      invariant local.Contents() == WithAll(c, taken) && |taken| <= i
      invariant |local.feed.log.history| == |c.log| + |taken|
      invariant delivered == rows[..i] && failed == []
      invariant lastSeqNo == if i == 0 then start else rows[i - 1].seqNo
      invariant Dealt(c, local.feed.members, remote.posts, local.feed.posts, delivered, taken)
    {
      var item := list[i];
      lastSeqNo := item.seqNo;
      var row := DeltaRow(item.seqNo, item.account, item.removed);
      ItemIsRow(list, rows, remote.posts, i);
      OneEachBelow(rows, i);
      if item.removed {
        RemovalDealt(c, local.feed.members, remote.posts, local.feed.posts, delivered, row, taken);
        delivered := delivered + [row];
        continue;
      }
      ghost var t;
      var success;
      success, t := SaveListed(local, remote, item.account, item.timestamp, c, taken, delivered, row);
      taken := taken + t;
      if success {
        delivered := delivered + [row];
      } else {
        failed := [row];
        FailureMeans(c, local.feed.members, remote, local.feed.posts, delivered, row, taken);
        PageProcessed(remote.log.history, start, remote.posts, local.feed.posts, lastSeqNo, delivered, [row]);
        return;
      }
    }
    DealtMeans(c, local.feed.members, remote, local.feed.posts, delivered, taken);
    if fetched {
      assert rows[..|list|] == rows;
      PageProcessed(remote.log.history, start, remote.posts, local.feed.posts, lastSeqNo, delivered, []);
    }
  }

  lemma NothingDealt(c: Content, members: Times, theirs: Times)
    ensures Dealt(c, members, theirs, c.posts, [], []) && WithAll(c, []) == c
  {
    NothingWanted(c, c.posts, theirs);
  }

  lemma DealtMeans(c: Content, members: Times, remote: Feed, mine: Times, delivered: seq<DeltaRow>,
                   taken: seq<Taken>)
    requires remote.Valid() && Dealt(c, members, remote.posts, mine, delivered, taken)
    ensures TakenFrom(c.posts, mine, remote.posts) && Matched(mine, remote.posts, delivered)
    ensures Admitted(taken, members, remote.posts)
    ensures CanDealAll(c.posts, members, remote.posts, delivered) && CannotDeal(c.posts, members, remote.posts, [])
    ensures taken == Wanted(c.posts, remote.posts, delivered) && Upward(remote.inviters, remote.depth)
    ensures taken == Wanted(c.posts, remote.posts, delivered) + ForFailed(c, members, remote, delivered, [])
  {
    hide FirstMember, TakenFor, WithAll, Wanted, TakenFrom, Matched, CanDealAll, InStep, Belong;
  }

  lemma FailureMeans(c: Content, members: Times, remote: Feed, mine: Times, delivered: seq<DeltaRow>, row: DeltaRow,
                     taken: seq<Taken>)
    requires remote.Valid() && Upward(remote.inviters, remote.depth)
    requires DealtThenFailed(c, members, remote, mine, delivered, row, taken)
    ensures TakenFrom(c.posts, mine, remote.posts) && Matched(mine, remote.posts, delivered)
    ensures Admitted(taken, members, remote.posts)
    ensures CanDealAll(c.posts, members, remote.posts, delivered) && CannotDeal(c.posts, members, remote.posts, [row])
    ensures taken == Wanted(c.posts, remote.posts, delivered) + ForFailed(c, members, remote, delivered, [row])
    ensures !Welcome(remote.posts, members)
  {
    hide FirstMember, TakenFor, WithAll, Wanted, TakenFrom, Matched, CanDealAll, InStep, Belong;
  }

  lemma ForFailedIs(c: Content, members: Times, remote: Feed, delivered: seq<DeltaRow>, row: DeltaRow)
    requires Upward(remote.inviters, remote.depth) && row.account in remote.posts
    ensures
      ForFailed(c, members, remote, delivered, [row]) ==
      TakenFor(WithAll(c, Wanted(c.posts, remote.posts, delivered)).posts, members, remote.posts,
               FirstMember(members, remote.inviters, remote.depth, row.account, remote.posts[row.account]))
  {
    hide FirstMember, TakenFor, WithAll, Wanted;
  }

  lemma PageProcessed(h: History, start: Uint64, theirs: Times, mine: Times, last: int, d: seq<DeltaRow>,
                      f: seq<DeltaRow>)
    requires |f| <= 1 && Matched(mine, theirs, d)
    requires
      var rows := First(RowsFrom(h, start, true), PAGE_SIZE);
      d + f <= rows && (f == [] ==> d == rows) && last == if d + f == [] then start else (d + f)[|d + f| - 1].seqNo
    ensures Processed(h, start, theirs, mine, last, d, f)
  {
    hide RowsFrom, Matched, First;
  }

  lemma BothAdmitted(x: seq<Taken>, y: seq<Taken>, members: Times, theirs: Times)
    requires Admitted(x, members, theirs) && Admitted(y, members, theirs)
    ensures Admitted(x + y, members, theirs)
  {}

  lemma WelcomeIsSavableAt(p: Times, members: Times, theirs: Times, a: Address)
    ensures IsWelcome(theirs, members, a) ==> Savable(p, members, theirs, a, theirs[a])
  {}

  lemma WelcomeIsSavable(p: Times, members: Times, theirs: Times, a: Address)
    ensures Welcome(theirs, members) && a in theirs ==> Savable(p, members, theirs, a, theirs[a])
  {}

  lemma PageOneEach(h: History, start: nat, rows: seq<DeltaRow>)
    requires rows <= RowsFrom(h, start, true)
    ensures OneEach(rows)
  {
    hide RowsFrom;
    RowsOneEach(h, start);
    assert forall i :: 0 <= i < |rows| ==> rows[i] == RowsFrom(h, start, true)[i];
  }

  lemma ItemIsRow(list: seq<Item>, rows: seq<DeltaRow>, posts: Times, i: nat)
    requires |list| == |rows| && i < |rows| && forall j :: 0 <= j < |rows| ==> ItemOf(list[j], rows[j], posts)
    ensures DeltaRow(list[i].seqNo, list[i].account, list[i].removed) == rows[i]
    ensures rows[..i + 1] == rows[..i] + [rows[i]]
    ensures !list[i].removed ==> list[i].account in posts && list[i].timestamp == posts[list[i].account]
  {}

  lemma OneEachBelow(rows: seq<DeltaRow>, i: nat)
    requires OneEach(rows) && i < |rows|
    ensures OneEach(rows[..i] + [rows[i]])
  {}

  lemma NothingTaken(p: Times, from: Times)
    ensures TakenFrom(p, p, from)
  {}

  lemma MatchedStays(p: Times, q: Times, theirs: Times, rows: seq<DeltaRow>)
    requires Matched(p, theirs, rows) && TakenFrom(p, q, theirs)
    ensures Matched(q, theirs, rows)
  {
    forall i | 0 <= i < |rows| && !rows[i].removed ensures AtLeastAsNew(q, theirs, rows[i].account) {
      TakenFromKeeps(p, q, theirs, theirs, rows[i].account);
    }
  }

  // ---- The paging loop --------------------------------------------------------------------------------

  /** Row `n`, if the log has it now, was delivered as it is now and its post has been taken over,
      or saving it failed. */
  ghost predicate Settled(h: History, n: int, mine: Times, theirs: Times, delivered: seq<DeltaRow>,
                          failed: seq<DeltaRow>) {
    1 <= n <= |h| && IsRow(h, n) ==>
      RowAt(h, n) in failed ||
      (RowAt(h, n) in delivered && (!h[n - 1].removed ==> AtLeastAsNew(mine, theirs, h[n - 1].account)))
  }

  ghost predicate SettledUpTo(h: History, start: int, cur: int, mine: Times, theirs: Times,
                              delivered: seq<DeltaRow>, failed: seq<DeltaRow>)
  {
    forall n :: start <= n < cur ==> Settled(h, n, mine, theirs, delivered, failed)
  }

  /** New events at the remote node do not unsettle what was settled: they only take rows away below
      the puller's position. */
  lemma EventKeepsSettled(h: History, e: Event, start: int, cur: int, mine: Times, theirs: Times, theirs': Times,
                          delivered: seq<DeltaRow>, failed: seq<DeltaRow>)
    requires SettledUpTo(h, start, cur, mine, theirs, delivered, failed)
    requires cur <= start || cur <= |h| + 1
    requires forall a :: a != e.account ==> Get(theirs', a) == Get(theirs, a)
    ensures SettledUpTo(h + [e], start, cur, mine, theirs', delivered, failed)
  {
    forall n | start <= n < cur ensures Settled(h + [e], n, mine, theirs', delivered, failed) {
      if 1 <= n && IsRow(h + [e], n) {
        LatestAfter(h, e, n - 1);
        assert Settled(h, n, mine, theirs, delivered, failed);
        assert Get(theirs', h[n - 1].account) == Get(theirs, h[n - 1].account);
      }
    }
  }

  /** Taking over more posts and delivering more rows keeps rows settled. */
  lemma MoreKeepsSettled(h: History, start: int, cur: int, mine: Times, mine': Times, theirs: Times,
                         delivered: seq<DeltaRow>, failed: seq<DeltaRow>, d: seq<DeltaRow>, f: seq<DeltaRow>)
    requires SettledUpTo(h, start, cur, mine, theirs, delivered, failed) && TakenFrom(mine, mine', theirs)
    ensures SettledUpTo(h, start, cur, mine', theirs, delivered + d, failed + f)
  {
    forall n | start <= n < cur ensures Settled(h, n, mine', theirs, delivered + d, failed + f) {
      assert Settled(h, n, mine, theirs, delivered, failed);
      if 1 <= n <= |h| && IsRow(h, n) && RowAt(h, n) in delivered && !h[n - 1].removed && RowAt(h, n) !in failed {
        TakenFromKeeps(mine, mine', theirs, theirs, h[n - 1].account);
      }
    }
  }

  /** The rows up to the last one processed are settled by processing a page. */
  lemma PageSettles(h: History, start: Uint64, mine: Times, theirs: Times, d: seq<DeltaRow>, f: seq<DeltaRow>, n: int)
    requires d + f <= First(RowsFrom(h, start, true), PAGE_SIZE) && Matched(mine, theirs, d)
    requires start <= n
    requires d + f == [] ==> First(RowsFrom(h, start, true), PAGE_SIZE) == []
    requires if d + f == RowsFrom(h, start, true) then true else |d + f| > 0 && n <= (d + f)[|d + f| - 1].seqNo
    ensures Settled(h, n, mine, theirs, d, f)
  {
    if 1 <= n <= |h| && IsRow(h, n) {
      var rows := RowsFrom(h, start, true);
      RowsAreRows(h, start, RowAt(h, n));
      RowsIncrease(h, start, true);
      hide RowsFrom;
      var i :| 0 <= i < |rows| && rows[i] == RowAt(h, n);
      assert i < |d + f| && (d + f)[i] == rows[i];
      if i < |d| { assert d[i] == rows[i]; } else { assert f[i - |d|] == rows[i]; }
    }
  }

  lemma RowsEnd(h: History, s: nat)
    ensures RowsFrom(h, s, true) != [] ==> s <= |h|
  {
  }

  /** Splitting the remaining rows after a page. */
  lemma {:induction false} RowsAfter(h: History, s: nat, k: nat)
    requires 0 < k <= |RowsFrom(h, s, true)|
    ensures RowsFrom(h, s, true)[k - 1].seqNo >= s
    ensures RowsFrom(h, s, true) == RowsFrom(h, s, true)[..k] + RowsFrom(h, RowsFrom(h, s, true)[k - 1].seqNo + 1, true)
    decreases |h| + 1 - s
  {
    hide *;
    RowsEnd(h, s);
    RowsStep(h, s, true);
    var rows, rest := RowsFrom(h, s, true), RowsFrom(h, s + 1, true);
    if Listed(h, s, true) {
      if k > 1 { RowsAfter(h, s + 1, k - 1); }
      assert rows[..k] == [rows[0]] + rest[..k - 1];
    } else {
      RowsAfter(h, s + 1, k);
    }
  }

  /** What happens at the remote node before a page is asked for, and whether the answer arrives. */
  datatype Round = Round(steps: seq<Step>, fetched: bool)

  function Steps(script: seq<Round>): nat {
    if script == [] then 0 else |script[0].steps| + Steps(script[1..])
  }

  lemma {:induction false} IncreasingSize(rows: seq<DeltaRow>, lo: int, hi: int)
    requires Increasing(rows, lo, hi)
    ensures rows != [] ==> |rows| <= hi - lo
  {
    if |rows| > 1 {
      var last := rows[|rows| - 1].seqNo;
      IncreasingSize(rows[..|rows| - 1], lo, last);
    }
  }

  // ---- What the remote node shows on the way -----------------------------------------------------------------

  /** Posts and invites of the remote node. */
  datatype View = View(posts: Times, members: Times)

  function Stepped(v: View, steps: seq<Step>): View {
    if steps == [] then v
    else
      var w := Stepped(v, steps[..|steps| - 1]);
      var e := EffectOf(w.posts, w.members, steps[|steps| - 1]);
      View(e.posts, e.members)
  }

  /** After the first `k` rounds. */
  function ViewAt(v: View, script: seq<Round>, k: nat): View
    requires k <= |script|
  {
    if k == 0 then v else Stepped(ViewAt(v, script, k - 1), script[k - 1].steps)
  }

  lemma SteppedMore(v: View, steps: seq<Step>, i: nat)
    requires i < |steps|
    ensures
      var w := Stepped(v, steps[..i]);
      var e := EffectOf(w.posts, w.members, steps[i]);
      Stepped(v, steps[..i + 1]) == View(e.posts, e.members)
    ensures Stepped(v, steps[..0]) == v && steps[..|steps|] == steps
  {
    assert steps[..i + 1][..i] == steps[..i];
  }

  /** The row carries a post that the remote node shows and that is not welcome here. */
  ghost predicate Unwelcome(view: View, members: Times, row: DeltaRow) {
    !row.removed && row.account in view.posts && !IsWelcome(view.posts, members, row.account)
  }

  ghost predicate Comes(view: View, members: Times, t: Taken) {
    t.account in members && Get(view.posts, t.account) == Some(t.timestamp) && t.timestamp > members[t.account]
  }

  /** Whatever could not be saved was not welcome when the remote node showed it, and whatever was taken over was
      there and acceptable. */
  ghost predicate Explained(v: View, script: seq<Round>, members: Times, failed: seq<DeltaRow>, taken: seq<Taken>) {
    (forall row :: row in failed ==> exists k :: 0 <= k <= |script| && Unwelcome(ViewAt(v, script, k), members, row)) &&
    (forall t :: t in taken ==> exists k :: 0 <= k <= |script| && Comes(ViewAt(v, script, k), members, t))
  }

  lemma ExplainedMore(v: View, script: seq<Round>, k: nat, members: Times, failed: seq<DeltaRow>, taken: seq<Taken>,
                      p: Times, f: seq<DeltaRow>, t: seq<Taken>)
    requires Explained(v, script, members, failed, taken) && k <= |script|
    requires CannotDeal(p, members, ViewAt(v, script, k).posts, f) && Admitted(t, members, ViewAt(v, script, k).posts)
    ensures Explained(v, script, members, failed + f, taken + t)
  {
    hide ViewAt;
    var view := ViewAt(v, script, k);
    forall row | row in f ensures Unwelcome(view, members, row) {
      var i :| 0 <= i < |f| && f[i] == row;
      WelcomeIsSavableAt(p, members, view.posts, row.account);
    }
    forall x | x in t ensures Comes(view, members, x) {
      var i :| 0 <= i < |t| && t[i] == x;
    }
  }

  lemma NothingToExplain(v: View, script: seq<Round>, members: Times)
    ensures Explained(v, script, members, [], []) && ViewAt(v, script, 0) == v
  {}

  /** If everything that the remote node ever shows is welcome, nothing fails. */
  lemma FailuresAreUnwelcome(v: View, script: seq<Round>, members: Times, failed: seq<DeltaRow>, taken: seq<Taken>)
    returns (k: nat)
    requires Explained(v, script, members, failed, taken) && failed != []
    ensures k <= |script| && !Welcome(ViewAt(v, script, k).posts, members)
  {
    hide ViewAt;
    assert failed[0] in failed;
    k :| 0 <= k <= |script| && Unwelcome(ViewAt(v, script, k), members, failed[0]);
  }

  lemma ViewStays(v: View, script: seq<Round>, k: nat)
    requires 0 < k <= |script|
    ensures ViewAt(v, script, k) == Stepped(ViewAt(v, script, k - 1), script[k - 1].steps)
  {}

  /** The remote node goes through the steps that happen before the next page is fetched. */
  method AdvanceAll(remote: Feed, steps: seq<Step>, ghost start: int, ghost cur: int, ghost mine: Times,
                    ghost delivered: seq<DeltaRow>, ghost failed: seq<DeltaRow>)
    requires remote.Valid() && |remote.log.history| + |steps| < U64
    requires SettledUpTo(remote.log.history, start, cur, mine, remote.posts, delivered, failed)
    requires cur <= start || cur <= |remote.log.history| + 1
    modifies remote, remote.log
    ensures remote.Valid() && |old(remote.log.history)| <= |remote.log.history| <= |old(remote.log.history)| + |steps|
    ensures steps == [] ==> remote.log.history == old(remote.log.history) && remote.posts == old(remote.posts) &&
                            remote.members == old(remote.members)
    ensures View(remote.posts, remote.members) == Stepped(View(old(remote.posts), old(remote.members)), steps)
    ensures SettledUpTo(remote.log.history, start, cur, mine, remote.posts, delivered, failed)
  {
    hide SettledUpTo, Feed.Valid, Stepped, Acceptable;
    ghost var v := View(remote.posts, remote.members);
    NoSteps(v);
    assert steps[..0] == [];
    for i := 0 to |steps|
      invariant remote.Valid()
      invariant |old(remote.log.history)| <= |remote.log.history| <= |old(remote.log.history)| + i
      invariant steps == [] ==> remote.log.history == old(remote.log.history) && remote.posts == old(remote.posts) &&
                                remote.members == old(remote.members)
      invariant View(remote.posts, remote.members) == Stepped(v, steps[..i])
      invariant SettledUpTo(remote.log.history, start, cur, mine, remote.posts, delivered, failed)
    {
      SteppedMore(v, steps, i);
      var step := steps[i];
      ghost var h, theirs := remote.log.history, remote.posts;
      ghost var e := EffectOf(theirs, remote.members, step);
      StepIsLocal(remote, step);
      remote.Advance(step);
      if e.logged.Some? {
        EventKeepsSettled(h, Event(step.account, e.logged.value), start, cur, mine, theirs, e.posts, delivered, failed);
      } else {
        assert h + [] == h;
      }
    }
    assert steps[..|steps|] == steps;
  }

  lemma NoSteps(v: View)
    ensures Stepped(v, []) == v
  {}

  lemma StepIsLocal(remote: Feed, step: Step)
    requires remote.Valid()
    ensures
      var e := EffectOf(remote.posts, remote.members, step);
      (e.logged.None? ==> e.posts == remote.posts) &&
      forall a :: a != step.account ==> Get(e.posts, a) == Get(remote.posts, a)
  {
    EffectKeepsInStep(remote.posts, remote.members, remote.log.history, step);
  }

  /** Why the paging loop ended: no row was left, saving the first row of a page failed, or a page could
      not be fetched. */
  datatype Exit = AllRows | SaveFailed(seqNo: int) | PageLost(seqNo: int)

  /** What is settled when the loop exits. */
  ghost predicate PullDone(h: History, start: int, mine: Times, theirs: Times,
                           delivered: seq<DeltaRow>, failed: seq<DeltaRow>, exit: Exit)
  {
    match exit
    case AllRows => forall n :: start <= n ==> Settled(h, n, mine, theirs, delivered, failed)
    case SaveFailed(s) => (exists row :: row in failed && row.seqNo == s) &&
                          SettledUpTo(h, start, s + 1, mine, theirs, delivered, failed)
    case PageLost(s) => SettledUpTo(h, start, s, mine, theirs, delivered, failed)
  }

  /** How one page was processed. */
  ghost predicate Processed(h: History, cur: Uint64, theirs: Times, mine: Times, last: int, d: seq<DeltaRow>,
                            f: seq<DeltaRow>) {
    var rows := First(RowsFrom(h, cur, true), PAGE_SIZE);
    |f| <= 1 && d + f <= rows && (f == [] ==> d == rows) && Matched(mine, theirs, d) &&
    last == if d + f == [] then cur else (d + f)[|d + f| - 1].seqNo
  }

  lemma PrefixIncreases(p: seq<DeltaRow>, rows: seq<DeltaRow>, lo: int, hi: int)
    requires Increasing(rows, lo, hi) && p <= rows
    ensures p != [] ==> lo <= p[|p| - 1].seqNo < hi && Increasing(p, lo, p[|p| - 1].seqNo + 1)
    ensures p == [] ==> Increasing(p, lo, lo + 1)
  {
    assert forall i :: 0 <= i < |p| ==> p[i] == rows[i];
  }

  lemma ProcessedIncreases(h: History, cur: Uint64, theirs: Times, mine: Times, last: int, d: seq<DeltaRow>,
                           f: seq<DeltaRow>)
    requires Processed(h, cur, theirs, mine, last, d, f)
    ensures cur <= last && (d + f != [] ==> last <= |h|) && Increasing(d + f, cur, last + 1)
  {
    hide RowsFrom;
    RowsIncrease(h, cur, true);
    PrefixIncreases(d + f, RowsFrom(h, cur, true), cur, |h| + 1);
  }

  lemma FirstPartIncreases(d: seq<DeltaRow>, f: seq<DeltaRow>, lo: int, hi: int)
    requires Increasing(d + f, lo, hi)
    ensures Increasing(d, lo, hi)
  {
    assert forall i :: 0 <= i < |d| ==> d[i] == (d + f)[i];
  }

  lemma ProcessedNumbers(h: History, cur: Uint64, theirs: Times, mine: Times, last: int, d: seq<DeltaRow>,
                         f: seq<DeltaRow>)
    requires Processed(h, cur, theirs, mine, last, d, f)
    ensures cur <= last && (d + f != [] ==> last <= |h|) && |d| + |f| <= last + 1 - cur
    ensures Increasing(d + f, cur, last + 1) && Increasing(d, cur, last + 1)
    ensures last == cur ==> |d| + |f| <= 1
    ensures d + f == [] ==> last == cur
    ensures last == cur && f == [] ==> d == RowsFrom(h, cur, true)
    ensures last == cur && f != [] ==> f[0].seqNo == cur
  {
    hide RowsFrom, Increasing, Matched;
    ProcessedIncreases(h, cur, theirs, mine, last, d, f);
    FirstPartIncreases(d, f, cur, last + 1);
    IncreasingSize(d + f, cur, last + 1);
    if f != [] { assert (d + f)[|d + f| - 1] == f[0]; }
  }

  /** One page settles the rows up to the last one processed, and all of them when the loop exits. */
  lemma PageStep(h: History, start: int, cur: Uint64, mine: Times, mine': Times, theirs: Times,
                 delivered: seq<DeltaRow>, failed: seq<DeltaRow>, last: int, d: seq<DeltaRow>, f: seq<DeltaRow>)
    requires SettledUpTo(h, start, cur, mine, theirs, delivered, failed) && TakenFrom(mine, mine', theirs)
    requires Processed(h, cur, theirs, mine', last, d, f)
    ensures last != cur ==> SettledUpTo(h, start, last + 1, mine', theirs, delivered + d, failed + f)
    ensures last == cur ==>
              PullDone(h, start, mine', theirs, delivered + d, failed + f,
                       if f == [] then AllRows else SaveFailed(cur))
  {
    hide RowsFrom, TakenFrom;
    ProcessedNumbers(h, cur, theirs, mine', last, d, f);
    MoreKeepsSettled(h, start, cur, mine, mine', theirs, delivered, failed, d, f);
    forall n | start <= n && (n <= last || (last == cur && f == []))
      ensures Settled(h, n, mine', theirs, delivered + d, failed + f)
    {
      if n >= cur {
        PageSettles(h, cur, mine', theirs, d, f, n);
        assert Settled(h, n, mine', theirs, d, f);
      } else {
        assert Settled(h, n, mine', theirs, delivered + d, failed + f);
      }
    }
    if last == cur && f != [] { assert f[0] in failed + f; }
  }

  lemma IncreasingAppend(a: seq<DeltaRow>, b: seq<DeltaRow>, lo: int, mid: int, hi: int)
    requires Increasing(a, lo, mid) && Increasing(b, mid, hi) && lo <= mid <= hi
    ensures Increasing(a + b, lo, hi)
  {}

  /** Against a quiet log the rows delivered so far and the rows ahead are all the rows, as long as no
      save has failed; a failed row is never delivered. */
  ghost predicate Quiet(h: History, start: nat, cur: nat, delivered: seq<DeltaRow>, failed: seq<DeltaRow>) {
    (failed == [] ==> delivered + RowsFrom(h, cur, true) == RowsFrom(h, start, true)) &&
    (failed != [] ==> exists row :: row in RowsFrom(h, start, true) && row !in delivered && row.seqNo < cur)
  }

  lemma QuietStep(h: History, start: nat, cur: Uint64, delivered: seq<DeltaRow>, failed: seq<DeltaRow>,
                  theirs: Times, mine: Times, last: int, d: seq<DeltaRow>, f: seq<DeltaRow>)
    requires start <= cur && Quiet(h, start, cur, delivered, failed) && Increasing(delivered, start, cur)
    requires Processed(h, cur, theirs, mine, last, d, f)
    ensures last >= cur && Quiet(h, start, last + 1, delivered + d, failed + f)
    ensures last == cur ==> (failed + f == [] <==> delivered + d == RowsFrom(h, start, true))
  {
    hide RowsFrom, Matched;
    ProcessedNumbers(h, cur, theirs, mine, last, d, f);
    if failed != [] {
      StillQuiet(h, start, cur, delivered, failed, last, d, f);
    } else if f != [] {
      QuietFailure(h, start, cur, delivered, d, f, last);
    } else {
      QuietGoesOn(h, start, cur, delivered, last, d);
    }
  }

  lemma StillQuiet(h: History, start: nat, cur: nat, delivered: seq<DeltaRow>, failed: seq<DeltaRow>, last: int,
                   d: seq<DeltaRow>, f: seq<DeltaRow>)
    requires Quiet(h, start, cur, delivered, failed) && failed != [] && cur <= last && Increasing(d, cur, last + 1)
    ensures Quiet(h, start, last + 1, delivered + d, failed + f) && failed + f != []
    ensures delivered + d != RowsFrom(h, start, true)
  {
    hide RowsFrom;
    var row :| row in RowsFrom(h, start, true) && row !in delivered && row.seqNo < cur;
    assert row !in d;
    assert row !in delivered + d;
  }

  lemma QuietGoesOn(h: History, start: nat, cur: Uint64, delivered: seq<DeltaRow>, last: int, d: seq<DeltaRow>)
    requires Quiet(h, start, cur, delivered, []) && cur <= last && d <= RowsFrom(h, cur, true)
    requires d == [] ==> RowsFrom(h, cur, true) == []
    requires d != [] ==> last == d[|d| - 1].seqNo
    requires last == cur ==> d == RowsFrom(h, cur, true)
    ensures Quiet(h, start, last + 1, delivered + d, [])
    ensures last == cur ==> delivered + d == RowsFrom(h, start, true)
  {
    hide RowsFrom;
    if d == [] {
      PastTheRows(h, cur, last + 1);
      assert delivered + d == delivered;
    } else {
      RowsAfter(h, cur, |d|);
      assert delivered + d + RowsFrom(h, last + 1, true) == delivered + (d + RowsFrom(h, last + 1, true));
    }
  }

  lemma QuietFailure(h: History, start: nat, cur: Uint64, delivered: seq<DeltaRow>, d: seq<DeltaRow>,
                     f: seq<DeltaRow>, last: int)
    requires delivered + RowsFrom(h, cur, true) == RowsFrom(h, start, true)
    requires |f| == 1 && d + f <= RowsFrom(h, cur, true)
    requires Increasing(d + f, cur, last + 1) && Increasing(delivered, start, cur)
    ensures exists row :: row in RowsFrom(h, start, true) && row !in delivered + d && row.seqNo < last + 1
  {
    var row := f[0];
    assert (d + f)[|d|] == row;
    assert forall i :: 0 <= i < |d| ==> (d + f)[i] == d[i];
    assert RowsFrom(h, cur, true)[|d|] == row;
    assert RowsFrom(h, start, true)[|delivered| + |d|] == row;
    assert row !in d && row !in delivered;
  }

  lemma PastTheRows(h: History, s: nat, t: nat)
    requires RowsFrom(h, s, true) == [] && s <= t
    ensures RowsFrom(h, t, true) == []
  {
    if RowsFrom(h, t, true) != [] {
      var row := RowsFrom(h, t, true)[0];
      RowsAreRows(h, t, row);
      RowsAreRows(h, s, row);
    }
  }

  /** Where the loop begins: number zero stands for one. */
  function StartOf(lastSyncSequenceNo: Uint64): (start: int)
    ensures start >= 1 && (lastSyncSequenceNo > 0 ==> start == lastSyncSequenceNo) &&
            (lastSyncSequenceNo == 0 ==> start == 1)
  {
    if lastSyncSequenceNo == 0 then 1 else lastSyncSequenceNo
  }

  lemma PullStarts(h: History, start: nat, mine: Times, theirs: Times)
    ensures SettledUpTo(h, start, start, mine, theirs, [], []) && Increasing([], start, start)
    ensures Quiet(h, start, start, [], [])
  {}

  lemma PullEnds(h: History, start: int, cur: Uint64, last: int, mine: Times, theirs: Times,
                 delivered: seq<DeltaRow>, d: seq<DeltaRow>, f: seq<DeltaRow>)
    requires Increasing(delivered, start, cur) && Processed(h, cur, theirs, mine, last, d, f)
    requires |delivered| <= cur - start && (cur == start || start <= cur <= |h| + 1)
    ensures Increasing(delivered + d, start, last + 1)
    ensures Increasing(delivered + d, start, |h| + 1)
  {
    hide RowsFrom;
    ProcessedNumbers(h, cur, theirs, mine, last, d, f);
    IncreasingAppend(delivered, d, start, cur, last + 1);
  }

  /** Rows of a quiet log mention every account once. */
  lemma QuietOneEach(h: History, start: nat, cur: Uint64, delivered: seq<DeltaRow>, d: seq<DeltaRow>)
    requires Quiet(h, start, cur, delivered, []) && d <= RowsFrom(h, cur, true)
    ensures OneEach(delivered + d)
  {
    hide RowsFrom;
    assert delivered + d <= delivered + RowsFrom(h, cur, true);
    PageOneEach(h, start, delivered + d);
  }

  /** A page of a quiet log without a failing row. */
  lemma CleanPage(c: Content, theirs: Times, h: History, start: nat, cur: Uint64, delivered: seq<DeltaRow>,
                  mine: Times, last: int, d: seq<DeltaRow>, taken: seq<Taken>, t: seq<Taken>)
    requires Quiet(h, start, cur, delivered, []) && Processed(h, cur, theirs, mine, last, d, [])
    requires taken == Wanted(c.posts, theirs, delivered)
    requires t == Wanted(WithAll(c, taken).posts, theirs, d)
    ensures taken + t == Wanted(c.posts, theirs, delivered + d)
  {
    hide RowsFrom, Quiet, WithAll, Wanted, OneEach, Matched;
    assert d + [] == d;
    QuietOneEach(h, start, cur, delivered, d);
    WantedMore(c, theirs, delivered, d);
  }

  /** A pull from a log that does not change, at position `cur` or, once it has ended, at its end: the rows dealt
      with are those that could be dealt with from the beginning, and what has failed could not; as long as
      nothing has failed, the posts taken over are the fresher ones in the order of their rows. */
  ghost predicate QuietRun(c: Content, members: Times, theirs: Times, mine: Times, h: History, start: nat, cur: nat,
                           running: bool, delivered: seq<DeltaRow>, failed: seq<DeltaRow>, taken: seq<Taken>)
  {
    TakenFrom(c.posts, mine, theirs) && Admitted(taken, members, theirs) &&
    CanDealAll(c.posts, members, theirs, delivered) && CannotDeal(c.posts, members, theirs, failed) &&
    (failed == [] ==> taken == Wanted(c.posts, theirs, delivered)) &&
    if running then Quiet(h, start, cur, delivered, failed)
    else failed == [] <==> delivered == RowsFrom(h, start, true)
  }

  lemma {:induction false} AdmittedPosts(c: Content, taken: seq<Taken>, members: Times, theirs: Times, a: Address)
    requires Admitted(taken, members, theirs)
    ensures
      var q := WithAll(c, taken).posts;
      Get(q, a) == Get(c.posts, a) ||
      (a in members && a in theirs && Get(q, a) == Some(theirs[a]) && theirs[a] > members[a])
  {
    hide AddHead, Nibbles;
    if taken != [] {
      var init := taken[..|taken| - 1];
      assert Admitted(init, members, theirs) by { assert forall i :: 0 <= i < |init| ==> init[i] == taken[i]; }
      AdmittedPosts(c, init, members, theirs, a);
    }
  }

  /** Taking over acceptable posts makes no difference to which rows can be dealt with. */
  lemma DealtAnyTime(c: Content, taken: seq<Taken>, members: Times, theirs: Times, mine: Times, row: DeltaRow)
    requires Admitted(taken, members, theirs) && mine == WithAll(c, taken).posts && TakenFrom(c.posts, mine, theirs)
    ensures CanDeal(mine, members, theirs, row) <==> CanDeal(c.posts, members, theirs, row)
  {
    hide WithAll;
    AdmittedPosts(c, taken, members, theirs, row.account);
    assert Get(mine, row.account) == Get(c.posts, row.account) ||
           (Get(mine, row.account) == Get(theirs, row.account) && Fresher(c.posts, theirs, row.account));
  }

  lemma DealtFromTheStart(c: Content, taken: seq<Taken>, members: Times, theirs: Times, mine: Times,
                          delivered: seq<DeltaRow>, failed: seq<DeltaRow>, d: seq<DeltaRow>, f: seq<DeltaRow>)
    requires Admitted(taken, members, theirs) && mine == WithAll(c, taken).posts && TakenFrom(c.posts, mine, theirs)
    requires CanDealAll(c.posts, members, theirs, delivered) && CannotDeal(c.posts, members, theirs, failed)
    requires CanDealAll(mine, members, theirs, d) && CannotDeal(mine, members, theirs, f)
    ensures CanDealAll(c.posts, members, theirs, delivered + d) && CannotDeal(c.posts, members, theirs, failed + f)
  {
    hide WithAll, CanDeal, TakenFrom, Admitted;
    forall i | 0 <= i < |delivered + d| ensures CanDeal(c.posts, members, theirs, (delivered + d)[i]) {
      if i >= |delivered| { DealtAnyTime(c, taken, members, theirs, mine, d[i - |delivered|]); }
    }
    forall i | 0 <= i < |failed + f|
      ensures !(failed + f)[i].removed && (failed + f)[i].account in theirs
      ensures !CanDeal(c.posts, members, theirs, (failed + f)[i])
    {
      if i >= |failed| { DealtAnyTime(c, taken, members, theirs, mine, f[i - |failed|]); }
    }
  }

  lemma QuietPage(c: Content, members: Times, theirs: Times, before: Times, mine: Times, h: History, start: nat,
                  cur: Uint64, delivered: seq<DeltaRow>, failed: seq<DeltaRow>, taken: seq<Taken>, last: int,
                  d: seq<DeltaRow>, f: seq<DeltaRow>, t: seq<Taken>)
    requires QuietRun(c, members, theirs, before, h, start, cur, true, delivered, failed, taken) && start <= cur
    requires before == WithAll(c, taken).posts && TakenFrom(before, mine, theirs) && Admitted(t, members, theirs)
    requires Increasing(delivered, start, cur) && Processed(h, cur, theirs, mine, last, d, f)
    requires CanDealAll(before, members, theirs, d) && CannotDeal(before, members, theirs, f)
    requires f == [] ==> t == Wanted(before, theirs, d)
    ensures last >= cur
    ensures last != cur ==>
              QuietRun(c, members, theirs, mine, h, start, last + 1, true, delivered + d, failed + f, taken + t)
    ensures last == cur ==>
              QuietRun(c, members, theirs, mine, h, start, cur, false, delivered + d, failed + f, taken + t)
  {
    hide RowsFrom, Quiet, WithAll, Wanted, TakenFrom, Processed, CanDealAll, CannotDeal, Admitted, Increasing;
    TakenTwice(c.posts, before, mine, theirs);
    BothAdmitted(taken, t, members, theirs);
    DealtFromTheStart(c, taken, members, theirs, before, delivered, failed, d, f);
    QuietStep(h, start, cur, delivered, failed, theirs, mine, last, d, f);
    if failed == [] && f == [] { CleanPage(c, theirs, h, start, cur, delivered, mine, last, d, taken, t); }
  }

  lemma QuietStarts(c: Content, members: Times, theirs: Times, h: History, start: nat)
    ensures QuietRun(c, members, theirs, c.posts, h, start, start, true, [], [], [])
  {
    NothingWanted(c, c.posts, theirs);
  }

  lemma QuietEnds(c: Content, members: Times, theirs: Times, mine: Times, h: History, start: nat, cur: nat,
                  delivered: seq<DeltaRow>, failed: seq<DeltaRow>, taken: seq<Taken>)
    requires QuietRun(c, members, theirs, mine, h, start, cur, false, delivered, failed, taken)
    ensures TakenFrom(c.posts, mine, theirs) && (failed == [] <==> delivered == RowsFrom(h, start, true))
    ensures CanDealAll(c.posts, members, theirs, delivered) && CannotDeal(c.posts, members, theirs, failed)
    ensures failed == [] ==> WithAll(c, taken) == Pulled(c, theirs, h, start)
    ensures Welcome(theirs, members) ==> failed == []
  {
    hide RowsFrom, WithAll, Wanted, TakenFrom;
    if failed != [] {
      assert !CanDeal(c.posts, members, theirs, failed[0]);
      WelcomeIsSavable(c.posts, members, theirs, failed[0].account);
    }
  }

  /** StartSequenceSwap. The remote node goes through the steps of `script[i]` before page i is asked for, and
      is quiet after the script, when every page arrives. Whatever happens in between: when the loop exits,
      every row that the remote log then has at or above the start has been delivered as it is now, and its
      post taken over, or saving it failed - unless the first row of a page failed or a page was lost, which
      ends the loop early. No number is delivered twice, and the node has moved by the posts taken over, one
      after the other. Every one of them was shown by the remote node at some point and acceptable here, and
      every post that could not be saved was shown at some point and not welcome. Against a quiet log, all rows
      are delivered in order exactly when no save failed, and then exactly the fresher posts have been taken
      over, in the order of their rows; what fails is decided by the state before the pull. */
  method StartSequenceSwap(s: Session, local: Node, remote: Feed, script: seq<Round>)
    returns (delivered: seq<DeltaRow>, failed: seq<DeltaRow>, exit: Exit, ghost taken: seq<Taken>)
    requires local.Valid() && remote.Valid() && remote !in local.Repr() && remote.log !in local.Repr()
    requires |local.feed.log.history| + |remote.log.history| + Steps(script) + PAGE_SIZE + 1 < U64
    modifies local.Repr(), remote, remote.log
    ensures local.Valid() && remote.Valid() && local.feed.members == old(local.feed.members)
    ensures local.Contents() == WithAll(old(local.Contents()), taken) && |taken| <= |remote.log.history|
    ensures PullDone(remote.log.history, StartOf(s.lastSyncSequenceNo), local.feed.posts, remote.posts,
                     delivered, failed, exit)
    ensures Increasing(delivered, StartOf(s.lastSyncSequenceNo), |remote.log.history| + 1)
    ensures exit.SaveFailed? ==> failed != []
    ensures exit.PageLost? ==> exists i :: 0 <= i < |script| && !script[i].fetched
    ensures Explained(View(old(remote.posts), old(remote.members)), script, local.feed.members, failed, taken)
    ensures script == [] ==> remote.log.history == old(remote.log.history) && remote.posts == old(remote.posts) &&
                             remote.members == old(remote.members)
    ensures script == [] ==>
              (failed == [] <==> delivered == RowsFrom(remote.log.history, StartOf(s.lastSyncSequenceNo), true)) &&
              TakenFrom(old(local.feed.posts), local.feed.posts, remote.posts) &&
              CanDealAll(old(local.feed.posts), local.feed.members, remote.posts, delivered) &&
              CannotDeal(old(local.feed.posts), local.feed.members, remote.posts, failed)
    ensures script == [] && failed == [] ==>
              exit == AllRows &&
              local.Contents() == Pulled(old(local.Contents()), remote.posts, remote.log.history,
                                         StartOf(s.lastSyncSequenceNo))
    ensures script == [] && Welcome(remote.posts, local.feed.members) ==> failed == []
  {
    hide RowsFrom, TakenFrom, Node.Valid, Feed.Valid, SettledUpTo, Quiet, PullDone, Increasing, Steps, WithAll, Wanted,
         CanDealAll, CannotDeal, Admitted, Explained, QuietRun, Processed, ViewAt, Stepped, Welcome, Matched, Upward,
         ForFailed, Pulled, PullAt;
    var curSeqNo: int := StartOf(s.lastSyncSequenceNo);
    ghost var start, c, v := curSeqNo, local.Contents(), View(remote.posts, remote.members);
    delivered, failed, exit, taken := [], [], AllRows, [];
    var bRunning, rest := true, script;
    WithNothing(c);
    NothingToExplain(v, script, local.feed.members);
    QuietStarts(c, local.feed.members, remote.posts, remote.log.history, start);
    PullBegins(remote.log.history, start, c.posts, remote.posts);
    while bRunning
      invariant local.Valid() && remote.Valid() && local.feed.members == old(local.feed.members)
      invariant local.Contents() == WithAll(c, taken) && |local.feed.log.history| == |c.log| + |taken|
      invariant |taken| <= |delivered| + |failed| && curSeqNo >= 1
      invariant PullAt(remote.log.history, start, curSeqNo, bRunning, local.feed.posts, remote.posts, delivered, failed,
                       exit)
      invariant |remote.log.history| + Steps(rest) <= |old(remote.log.history)| + Steps(script)
      invariant |rest| <= |script| && rest == script[|script| - |rest|..]
      invariant View(remote.posts, remote.members) == ViewAt(v, script, |script| - |rest|)
      invariant exit.PageLost? ==> exists i :: 0 <= i < |script| && !script[i].fetched
      invariant Explained(v, script, local.feed.members, failed, taken)
      invariant script == [] ==> remote.log.history == old(remote.log.history) &&
                                 remote.posts == old(remote.posts) && remote.members == old(remote.members)
      invariant script == [] ==>
                  QuietRun(c, local.feed.members, remote.posts, local.feed.posts, remote.log.history, start, curSeqNo,
                           bRunning, delivered, failed, taken)
      decreases bRunning, |rest|, |remote.log.history| + 2 + start - curSeqNo
    {
      var round := Round([], true);
      NextRound(v, script, rest);
      if rest != [] {
        round, rest := rest[0], rest[1..];
      }
      PullAtMeans(remote.log.history, start, curSeqNo, local.feed.posts, remote.posts, delivered, failed, exit);
      ghost var before, h0, theirs0 := local.feed.posts, remote.log.history, remote.posts;
      AdvanceAll(remote, round.steps, start, curSeqNo, before, delivered, failed);
      ghost var h := remote.log.history;
      PullMoves(h0, start, curSeqNo, before, theirs0, h, remote.posts, delivered, failed);
      ghost var t;
      var lastSeqNo, d, f;
      lastSeqNo, d, f, t := DoSequenceSwapBatch(local, remote, curSeqNo, round.fetched);
      WithMore(c, taken, t);
      WithAllMoves(c, taken + t);
      ExplainedMore(v, script, |script| - |rest|, local.feed.members, failed, taken, before, f, t);
      if round.fetched {
        PageLands(h, start, curSeqNo, before, local.feed.posts, remote.posts, delivered, failed, lastSeqNo, d, f);
      } else {
        PageMissing(h, start, curSeqNo, before, local.feed.posts, remote.posts, delivered, failed);
      }
      if script == [] {
        NoneForNone(WithAll(c, taken), local.feed.members, remote, d, f, t);
        QuietPage(c, local.feed.members, remote.posts, before, local.feed.posts, h, start, curSeqNo, delivered, failed,
                  taken, lastSeqNo, d, f, t);
      }
      delivered, failed, taken := delivered + d, failed + f, taken + t;
      if lastSeqNo == curSeqNo {
        exit := if !round.fetched then PageLost(curSeqNo) else if f == [] then AllRows else SaveFailed(curSeqNo);
        bRunning := false;
      } else {
        curSeqNo := lastSeqNo + 1;
      }
    }
    PullAtEnd(remote.log.history, start, curSeqNo, local.feed.posts, remote.posts, delivered, failed, exit);
    if script == [] {
      QuietEnds(c, local.feed.members, remote.posts, local.feed.posts, remote.log.history, start, curSeqNo, delivered,
                failed, taken);
    }
  }

  lemma NoneForNone(c: Content, members: Times, remote: Feed, d: seq<DeltaRow>, f: seq<DeltaRow>, t: seq<Taken>)
    requires Upward(remote.inviters, remote.depth)
    requires t == Wanted(c.posts, remote.posts, d) + ForFailed(c, members, remote, d, f)
    ensures f == [] ==> t == Wanted(c.posts, remote.posts, d)
  {
    hide Wanted, WithAll, TakenFor, FirstMember;
  }

  /** What the next round does to the rest of the script and to the view of the remote node. */
  lemma NextRound(v: View, script: seq<Round>, rest: seq<Round>)
    requires |rest| <= |script| && rest == script[|script| - |rest|..]
    ensures rest != [] ==>
              Steps(rest) == |rest[0].steps| + Steps(rest[1..]) && rest[1..] == script[|script| - |rest[1..]|..] &&
              rest[0] == script[|script| - |rest|] &&
              ViewAt(v, script, |script| - |rest[1..]|) ==
              Stepped(ViewAt(v, script, |script| - |rest|), rest[0].steps)
    ensures rest == [] ==> Steps(rest) == 0
    ensures forall w :: Stepped(w, []) == w
  {
    hide Stepped;
    forall w ensures Stepped(w, []) == w { NoSteps(w); }
    if rest != [] { ViewStays(v, script, |script| - |rest[1..]|); }
  }

  /** Where a pull is: at row `cur`, with everything before it settled, or at its end. */
  ghost predicate PullAt(h: History, start: int, cur: int, running: bool, mine: Times, theirs: Times,
                         delivered: seq<DeltaRow>, failed: seq<DeltaRow>, exit: Exit)
  {
    1 <= start <= cur && (cur == start || cur <= |h| + 1) && |delivered| + |failed| <= |h| &&
    (exit.SaveFailed? ==> failed != []) &&
    if running then
      |delivered| + |failed| <= cur - start && Increasing(delivered, start, cur) && exit == AllRows &&
      SettledUpTo(h, start, cur, mine, theirs, delivered, failed)
    else PullDone(h, start, mine, theirs, delivered, failed, exit) && Increasing(delivered, start, |h| + 1)
  }

  lemma PullBegins(h: History, start: nat, mine: Times, theirs: Times)
    requires start >= 1
    ensures PullAt(h, start, start, true, mine, theirs, [], [], AllRows)
  {
    PullStarts(h, start, mine, theirs);
  }

  lemma PullAtMeans(h: History, start: int, cur: int, mine: Times, theirs: Times, delivered: seq<DeltaRow>,
                    failed: seq<DeltaRow>, exit: Exit)
    requires PullAt(h, start, cur, true, mine, theirs, delivered, failed, exit)
    ensures 1 <= start <= cur && (cur == start || cur <= |h| + 1) && |delivered| + |failed| <= |h| && exit == AllRows
    ensures Increasing(delivered, start, cur) && SettledUpTo(h, start, cur, mine, theirs, delivered, failed)
  {
    hide SettledUpTo, Increasing;
  }

  lemma PullAtEnd(h: History, start: int, cur: int, mine: Times, theirs: Times, delivered: seq<DeltaRow>,
                  failed: seq<DeltaRow>, exit: Exit)
    requires PullAt(h, start, cur, false, mine, theirs, delivered, failed, exit)
    ensures PullDone(h, start, mine, theirs, delivered, failed, exit) && Increasing(delivered, start, |h| + 1)
    ensures |delivered| + |failed| <= |h| && (exit.SaveFailed? ==> failed != [])
  {
    hide PullDone, Increasing;
  }

  lemma PullMoves(h: History, start: int, cur: int, mine: Times, theirs: Times, h': History, theirs': Times,
                  delivered: seq<DeltaRow>, failed: seq<DeltaRow>)
    requires PullAt(h, start, cur, true, mine, theirs, delivered, failed, AllRows) && |h| <= |h'|
    requires SettledUpTo(h', start, cur, mine, theirs', delivered, failed)
    ensures PullAt(h', start, cur, true, mine, theirs', delivered, failed, AllRows)
  {
    hide SettledUpTo, Increasing;
  }

  /** A page moves the pull on, or ends it. */
  lemma PageLands(h: History, start: int, cur: Uint64, mine: Times, mine': Times, theirs: Times,
                  delivered: seq<DeltaRow>, failed: seq<DeltaRow>, last: int, d: seq<DeltaRow>, f: seq<DeltaRow>)
    requires PullAt(h, start, cur, true, mine, theirs, delivered, failed, AllRows) && TakenFrom(mine, mine', theirs)
    requires Processed(h, cur, theirs, mine', last, d, f)
    ensures cur <= last
    ensures last != cur ==> PullAt(h, start, last + 1, true, mine', theirs, delivered + d, failed + f, AllRows)
    ensures last == cur ==>
              PullAt(h, start, cur, false, mine', theirs, delivered + d, failed + f,
                     if f == [] then AllRows else SaveFailed(cur))
  {
    hide SettledUpTo, Increasing, PullDone, Processed, TakenFrom;
    PageStep(h, start, cur, mine, mine', theirs, delivered, failed, last, d, f);
    PullEnds(h, start, cur, last, mine', theirs, delivered, d, f);
    ProcessedNumbers(h, cur, theirs, mine', last, d, f);
  }

  lemma PageMissing(h: History, start: int, cur: Uint64, mine: Times, mine': Times, theirs: Times,
                    delivered: seq<DeltaRow>, failed: seq<DeltaRow>)
    requires PullAt(h, start, cur, true, mine, theirs, delivered, failed, AllRows) && TakenFrom(mine, mine', theirs)
    ensures PullAt(h, start, cur, false, mine', theirs, delivered + [], failed + [], PageLost(cur))
  {
    hide SettledUpTo, Increasing, PullDone, TakenFrom;
    LostPage(h, start, cur, mine, mine', theirs, delivered, failed);
  }

  lemma LostPage(h: History, start: int, cur: Uint64, mine: Times, mine': Times, theirs: Times,
                 delivered: seq<DeltaRow>, failed: seq<DeltaRow>)
    requires SettledUpTo(h, start, cur, mine, theirs, delivered, failed) && TakenFrom(mine, mine', theirs)
    requires Increasing(delivered, start, cur) && (cur == start || cur <= |h| + 1) && |delivered| <= cur - start
    ensures PullDone(h, start, mine', theirs, delivered + [], failed + [], PageLost(cur))
    ensures Increasing(delivered + [], start, |h| + 1)
  {
    hide TakenFrom;
    MoreKeepsSettled(h, start, cur, mine, mine', theirs, delivered, failed, [], []);
    assert delivered + [] == delivered;
  }

  // ---- Two peers --------------------------------------------------------------------------------------

  lemma PullIsNewest(p: Times, q: Times, theirs: Times, h: History, start: int, delivered: seq<DeltaRow>)
    requires InStep(theirs, h) && CaughtUp(p, theirs, h, start) && start >= 1
    requires TakenFrom(p, q, theirs) && PullDone(h, start, q, theirs, delivered, [], AllRows)
    ensures q == Newest(p, theirs)
  {
    forall a ensures Get(q, a) == Get(Newest(p, theirs), a) {
      assert Get(q, a) == Get(p, a) || (Get(q, a) == Get(theirs, a) && Fresher(p, theirs, a));
      if a in theirs {
        PostIsRow(theirs, h, a);
        var n :| 1 <= n <= |h| && IsRow(h, n) && !h[n - 1].removed && h[n - 1].account == a;
        if n < start {
          TakenFromKeeps(p, q, theirs, theirs, a);
        } else {
          assert Settled(h, n, q, theirs, delivered, []);
        }
      }
    }
    SameEntries(q, Newest(p, theirs));
  }

  /** Equal heads mean equal posts: the comparison in StartSync and peerSyncFinished is sound. */
  lemma EqualHeadsEqualPosts(a: Node, b: Node)
    requires a.Valid() && b.Valid() && a.merkle.hash == b.merkle.hash && a.merkle.head == b.merkle.head
    ensures a.tree == b.tree && a.feed.posts == b.feed.posts
  {
    if a.tree.Some? {
      SameHeadSameTree(a.merkle.hash, a.tree.value, b.tree.value, ADDRESS_LENGTH);
    }
    forall x ensures Get(a.feed.posts, x) == Get(b.feed.posts, x) {
      assert FindHead(a.tree, Nibbles(x)) == Get(a.feed.posts, x);
      assert FindHead(b.tree, Nibbles(x)) == Get(b.feed.posts, x);
    }
    SameEntries(a.feed.posts, b.feed.posts);
  }

  /** Equal posts mean equal heads as long as both trees are canonical. */
  lemma EqualPostsEqualHeads(a: Node, b: Node)
    requires a.Valid() && b.Valid() && a.merkle.hash == b.merkle.hash && a.feed.posts == b.feed.posts
    requires CanonicalHead(a.tree) && CanonicalHead(b.tree)
    ensures a.merkle.head == b.merkle.head
  {
    EqualPostsEqualTrees(a.tree, b.tree, a.feed.posts);
  }

  /** The only message of the protocol: "I have finished, this is my merklehead now". */
  datatype Message = Nothing | SyncFinished(merklehead: Option<Multihash>)

  /** Two nodes with the same members and the same hash function, sharing no storage; every post is newer than
      its account's invite. */
  ghost predicate Peers(a: Node, b: Node)
    reads a.Repr(), b.Repr()
  {
    a.Valid() && b.Valid() && a.Repr() !! b.Repr() &&
    a.merkle.hash == b.merkle.hash && a.feed.members == b.feed.members &&
    Welcome(a.feed.posts, a.feed.members) && Welcome(b.feed.posts, b.feed.members)
  }

  /** The initiator's and the responder's half of a sync round on one side. */
  method StartSync(s: Session, local: Node, remote: Node) returns (message: Message, pulls: nat)
    requires Peers(local, remote) && s !in local.Repr() && s !in remote.Repr()
    requires CaughtUp(local.feed.posts, remote.feed.posts, remote.feed.log.history, StartOf(s.lastSyncSequenceNo))
    requires s.remoteMerklehead == remote.merkle.head
    requires |local.feed.log.history| + |remote.feed.log.history| + PAGE_SIZE + 1 < U64
    modifies s`hasSynced, local.Repr(), remote.feed, remote.feed.log
    ensures Peers(local, remote) && remote.Contents() == old(remote.Contents())
    ensures local.Contents() == Pulled(old(local.Contents()), remote.feed.posts, remote.feed.log.history,
                                       StartOf(s.lastSyncSequenceNo))
    ensures local.feed.posts == Newest(old(local.feed.posts), remote.feed.posts)
    ensures |local.feed.log.history| <= |old(local.feed.log.history)| + |remote.feed.log.history|
    ensures pulls <= 1
    ensures pulls == 0 <==> remote.merkle.head == None || old(local.merkle.head) == remote.merkle.head
    ensures pulls == 0 ==> local.merkle.head == old(local.merkle.head)
    ensures message == Nothing <==> old(local.merkle.head) == remote.merkle.head && remote.merkle.head.Some?
    ensures message != Nothing ==> message == SyncFinished(local.merkle.head)
    ensures message == Nothing ==> local.merkle.head == old(local.merkle.head)
    ensures s.hasSynced <==> old(s.hasSynced) || (remote.merkle.head.Some? && local.merkle.head == remote.merkle.head)
  {
    hide Feed.Valid, InStep, PullDone, TakenFrom, Newest, CaughtUp, RowsFrom, Increasing, Indexed, GoodHead,
         Merklehead.Shows, Merklehead.Valid, Welcome, WithAll, Wanted;
    pulls := 0;
    ghost var start := StartOf(s.lastSyncSequenceNo);
    NothingToPull(local, remote, start);
    if s.remoteMerklehead == None {
    } else if local.merkle.head == s.remoteMerklehead {
      s.hasSynced := true;
      return Nothing, pulls;
    } else {
      ghost var c := local.Contents();
      ghost var taken;
      var delivered, failed, exit;
      delivered, failed, exit, taken := StartSequenceSwap(s, local, remote.feed, []);
      pulls := 1;
      WithAllMoves(c, taken);
      PullIsNewest(c.posts, local.feed.posts, remote.feed.posts, remote.feed.log.history, start, delivered);
      NewestIsWelcome(c.posts, remote.feed.posts, local.feed.members);
      if local.merkle.head == s.remoteMerklehead {
        s.hasSynced := true;
      }
    }
    message := SyncFinished(local.merkle.head);
  }

  lemma NewestIsWelcome(p: Times, q: Times, members: Times)
    requires Welcome(p, members) && Welcome(q, members)
    ensures Welcome(Newest(p, q), members)
  {
    forall a | a in Newest(p, q) ensures IsWelcome(Newest(p, q), members, a) {
      if a in p { assert IsWelcome(p, members, a); }
      if a in q { assert IsWelcome(q, members, a); }
    }
  }

  /** Why a pull may be left out, and why every post of the remote node is welcome. */
  lemma NothingToPull(a: Node, b: Node, start: nat)
    requires Peers(a, b)
    ensures Welcome(b.feed.posts, a.feed.members) && InStep(b.feed.posts, b.feed.log.history)
    ensures b.merkle.head == None || a.merkle.head == b.merkle.head ==>
              Newest(a.feed.posts, b.feed.posts) == a.feed.posts &&
              Pulled(a.Contents(), b.feed.posts, b.feed.log.history, start) == a.Contents()
  {
    if b.merkle.head == None {
      forall x ensures x !in b.feed.posts { assert FindHead(b.tree, Nibbles(x)) == Get(b.feed.posts, x); }
      NothingNew(a.feed.posts, b.feed.posts, RowsFrom(b.feed.log.history, start, true));
    } else if a.merkle.head == b.merkle.head {
      EqualHeadsEqualPosts(a, b);
      NothingNew(a.feed.posts, b.feed.posts, RowsFrom(b.feed.log.history, start, true));
    }
  }

  /** peerSyncFinished: the initiator compares heads, the responder starts its own half. */
  method PeerSyncFinished(s: Session, local: Node, remote: Node, merklehead: Option<Multihash>)
    returns (message: Message, pulls: nat)
    requires Peers(local, remote) && s !in local.Repr() && s !in remote.Repr()
    requires !s.weInitiated ==>
               CaughtUp(local.feed.posts, remote.feed.posts, remote.feed.log.history, StartOf(s.lastSyncSequenceNo))
    requires merklehead == remote.merkle.head
    requires !s.weInitiated ==> |local.feed.log.history| + |remote.feed.log.history| + PAGE_SIZE + 1 < U64
    modifies s`hasSynced, s`remoteMerklehead, local.Repr(), remote.feed, remote.feed.log
    ensures Peers(local, remote) && remote.Contents() == old(remote.Contents())
    ensures s.weInitiated ==>
              message == Nothing && pulls == 0 && local.merkle.head == old(local.merkle.head) &&
              local.Contents() == old(local.Contents()) &&
              (s.hasSynced <==> old(s.hasSynced) || local.merkle.head == remote.merkle.head)
    ensures !s.weInitiated ==>
              pulls <= 1 &&
              local.Contents() == Pulled(old(local.Contents()), remote.feed.posts, remote.feed.log.history,
                                         StartOf(s.lastSyncSequenceNo)) &&
              local.feed.posts == Newest(old(local.feed.posts), remote.feed.posts) &&
              (message == Nothing <==> old(local.merkle.head) == remote.merkle.head && remote.merkle.head.Some?) &&
              (pulls == 0 ==> local.merkle.head == old(local.merkle.head)) &&
              (pulls == 0 <==> remote.merkle.head == None || old(local.merkle.head) == remote.merkle.head) &&
              (message != Nothing ==> message == SyncFinished(local.merkle.head)) &&
              (s.hasSynced <==>
                old(s.hasSynced) || (remote.merkle.head.Some? && local.merkle.head == remote.merkle.head))
  {
    hide Node.Valid, Feed.Valid, CaughtUp, Newest, Welcome, Pulled;
    s.remoteMerklehead := merklehead;
    message, pulls := Nothing, 0;
    if s.weInitiated {
      if local.merkle.head == s.remoteMerklehead {
        s.hasSynced := true;
      }
    } else {
      message, pulls := StartSync(s, local, remote);
    }
  }

  /** A whole run between an initiator and a responder that have exchanged heads: at most two pulls and two
      finish messages, after which both nodes hold the newest post of every account. Whether they then
      agree on the merklehead is decided by the trees that the two pulls build; clean pulls make them
      agree. The initiator is marked synced exactly when they agree; the responder is too unless the heads
      agreed before, in which case nobody tells it. */
  method Synchronise(i: Session, r: Session, a: Node, b: Node) returns (pulls: nat, messages: nat)
    requires Peers(a, b) && i != r && {i, r} !! a.Repr() && {i, r} !! b.Repr()
    requires i.weInitiated && !r.weInitiated && !i.hasSynced && !r.hasSynced
    requires i.remoteMerklehead == b.merkle.head && r.remoteMerklehead == a.merkle.head
    requires CaughtUp(a.feed.posts, b.feed.posts, b.feed.log.history, StartOf(i.lastSyncSequenceNo))
    requires CaughtUp(b.feed.posts, a.feed.posts, a.feed.log.history, StartOf(r.lastSyncSequenceNo))
    requires |a.feed.log.history| + 2 * |b.feed.log.history| + PAGE_SIZE + 1 < U64
    modifies i`hasSynced, i`remoteMerklehead, r`hasSynced, r`remoteMerklehead, a.Repr(), b.Repr()
    ensures Peers(a, b)
    ensures a.Contents() == Pulled(old(a.Contents()), old(b.feed.posts), old(b.feed.log.history),
                                   StartOf(i.lastSyncSequenceNo))
    ensures b.Contents() == Pulled(old(b.Contents()), a.feed.posts, a.feed.log.history,
                                   StartOf(r.lastSyncSequenceNo))
    ensures a.feed.posts == b.feed.posts == Newest(old(a.feed.posts), old(b.feed.posts))
    ensures pulls <= 2 && messages <= 2
    ensures
      var agree := Agree(old(a.Contents()), old(b.Contents()),
                         StartOf(i.lastSyncSequenceNo), StartOf(r.lastSyncSequenceNo));
      (i.hasSynced <==> agree) && (r.hasSynced <==> agree && old(a.merkle.head) != old(b.merkle.head))
    ensures CleanRound(old(a.Contents()), old(b.Contents()),
                       StartOf(i.lastSyncSequenceNo), StartOf(r.lastSyncSequenceNo)) ==>
              i.hasSynced && (r.hasSynced <==> old(a.merkle.head) != old(b.merkle.head))
  {
    hide Node.Valid, Feed.Valid, CaughtUp, Newest, Moves, Welcome, Pulled, Agree, CleanRound;
    ghost var c, d := a.Contents(), b.Contents();
    ghost var startA, startB := StartOf(i.lastSyncSequenceNo), StartOf(r.lastSyncSequenceNo);
    messages := 0;
    BeforeTheRound(a, b, startA, startB);
    var message;
    message, pulls := StartSync(i, a, b);
    PulledMoves(c, d.posts, d.log, startA);
    StillCaughtUp(d.posts, c.posts, a.feed.posts, c.log, a.feed.log.history, startB);
    NewestTwice(c.posts, d.posts);
    NothingToPull(b, a, startB);
    if message.SyncFinished? {
      messages := 1;
      var more;
      message, more := PeerSyncFinished(r, b, a, message.merklehead);
      pulls := pulls + more;
      if message.SyncFinished? {
        messages := 2;
        message, more := PeerSyncFinished(i, a, b, message.merklehead);
      }
    }
    HeadsAreTrees(a, b);
    AgreeIs(c, d, startA, startB);
  }

  lemma AgreeIs(a: Content, b: Content, startA: nat, startB: nat)
    ensures
      var c := Pulled(a, b.posts, b.log, startA);
      Agree(a, b, startA, startB) <==> Pulled(b, c.posts, c.log, startB).tree == c.tree
  {}

  /** Clean rounds end in agreement, and heads that are equal already mean equal posts. */
  lemma BeforeTheRound(a: Node, b: Node, startA: nat, startB: nat)
    requires Peers(a, b) && startA >= 1 && startB >= 1
    requires CaughtUp(a.feed.posts, b.feed.posts, b.feed.log.history, startA)
    requires CaughtUp(b.feed.posts, a.feed.posts, a.feed.log.history, startB)
    ensures CleanRound(a.Contents(), b.Contents(), startA, startB) ==> Agree(a.Contents(), b.Contents(), startA, startB)
    ensures a.merkle.head == b.merkle.head ==> a.feed.posts == b.feed.posts
  {
    hide CaughtUp, CleanRound, Agree, Indexed, GoodHead, InStep;
    if a.merkle.head == b.merkle.head { EqualHeadsEqualPosts(a, b); }
    if CleanRound(a.Contents(), b.Contents(), startA, startB) {
      CleanPullsAgree(a.Contents(), b.Contents(), startA, startB);
    }
  }

  lemma HeadsAreTrees(a: Node, b: Node)
    requires a.Valid() && b.Valid() && a.merkle.hash == b.merkle.hash
    ensures a.merkle.head == b.merkle.head <==> a.tree == b.tree
  {
    if a.merkle.head == b.merkle.head { EqualHeadsEqualPosts(a, b); }
  }
}
