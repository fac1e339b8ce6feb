/** What a pull does to the content of a node: its log, its posts and the tree of its merklehead. The code
    that pulls is in Sessions.dfy and is proved to do what the functions here say. */
module Pulls {
  import opened Basics
  import opened DeltaLogs
  import MerkleRemove
  import opened MerkleTree
  import opened Feeds

  // ---- Addresses in the merklehead ------------------------------------------------------------------

  /** hex.EncodeToString of an account address. */
  function Nibbles(a: Address): Tail {
    seq(ADDRESS_LENGTH, i requires 0 <= i < ADDRESS_LENGTH => if i % 2 == 0 then a[i / 2] / 16 else a[i / 2] % 16)
  }

  function FromNibbles(k: Tail): Address
    requires |k| == ADDRESS_LENGTH
  {
    seq(20, i requires 0 <= i < 20 => 16 * (k[2 * i] as int) + k[2 * i + 1])
  }

  lemma HighAndLow(b: int)
    requires 0 <= b < 0x100
    ensures 0 <= b / 16 < 16 && 0 <= b % 16 < 16 && 16 * (b / 16) + b % 16 == b
  {}

  lemma ByteOf(hi: int, lo: int)
    requires 0 <= hi < 16 && 0 <= lo < 16
    ensures 0 <= 16 * hi + lo < 0x100 && (16 * hi + lo) / 16 == hi && (16 * hi + lo) % 16 == lo
  {}

  lemma NibblesInvert(a: Address, k: Tail)
    ensures FromNibbles(Nibbles(a)) == a && |Nibbles(a)| == ADDRESS_LENGTH
    ensures |k| == ADDRESS_LENGTH ==> Nibbles(FromNibbles(k)) == k
  {
    forall i | 0 <= i < 20 ensures FromNibbles(Nibbles(a))[i] == a[i] {
      HighAndLow(a[i]);
      assert Nibbles(a)[2 * i] == a[i] / 16 && Nibbles(a)[2 * i + 1] == a[i] % 16;
    }
    if |k| == ADDRESS_LENGTH {
      forall i | 0 <= i < ADDRESS_LENGTH ensures Nibbles(FromNibbles(k))[i] == k[i] {
        var j := i / 2;
        assert i == 2 * j || i == 2 * j + 1;
        ByteOf(k[2 * j], k[2 * j + 1]);
        assert FromNibbles(k)[j] == 16 * (k[2 * j] as int) + k[2 * j + 1];
      }
    }
  }

  /** The merklehead shows exactly the posts. */
  ghost predicate Indexed(h: Head, posts: Times) {
    forall a: Address :: FindHead(h, Nibbles(a)) == Get(posts, a)
  }

  lemma PostIndexed(h: Head, posts: Times, account: Address, timestamp: nat)
    requires GoodHead(h) && Indexed(h, posts)
    ensures Indexed(AddHead(h, Nibbles(account), timestamp), posts[account := timestamp])
  {
    if h.Some? { AddRefinesUpdate(h.value, ADDRESS_LENGTH, Nibbles(account), timestamp); }
    forall a: Address
      ensures FindHead(AddHead(h, Nibbles(account), timestamp), Nibbles(a)) == Get(posts[account := timestamp], a)
    {
      hide Nibbles, FromNibbles;
      NibblesInvert(a, []);
      NibblesInvert(account, []);
      assert FindHead(h, Nibbles(a)) == Get(posts, a);
    }
  }

  // ---- Content and posts taken over -------------------------------------------------------------------

  datatype Content = Content(log: History, posts: Times, tree: Head)

  datatype Taken = Taken(account: Address, timestamp: nat)

  /** Log and merklehead agree with the posts. */
  ghost predicate Sound(c: Content) {
    GoodHead(c.tree) && Indexed(c.tree, c.posts) && InStep(c.posts, c.log)
  }

  function With(c: Content, t: Taken): Content {
    Content(c.log + [Event(t.account, false)], c.posts[t.account := t.timestamp],
            AddHead(c.tree, Nibbles(t.account), t.timestamp))
  }

  /** Taking over posts one after the other. */
  function WithAll(c: Content, taken: seq<Taken>): Content {
    if taken == [] then c else With(WithAll(c, taken[..|taken| - 1]), taken[|taken| - 1])
  }

  lemma {:induction false} WithMore(c: Content, x: seq<Taken>, y: seq<Taken>)
    ensures WithAll(WithAll(c, x), y) == WithAll(c, x + y)
    decreases |y|
  {
    if y == [] {
      assert x + y == x;
    } else {
      var z := y[..|y| - 1];
      assert (x + y)[..|x + y| - 1] == x + z;
      WithMore(c, x, z);
    }
  }

  lemma WithOne(c: Content, x: seq<Taken>, t: Taken)
    ensures WithAll(c, [t]) == With(c, t)
    ensures WithAll(c, x + [t]) == With(WithAll(c, x), t)
    ensures WithAll(c, []) == c
  {
    assert (x + [t])[..|x|] == x;
    assert [t][..0] == [];
  }

  lemma WithKeepsSound(c: Content, t: Taken)
    requires Sound(c)
    ensures Sound(With(c, t))
  {
    hide Indexed, InStep, Nibbles;
    var k := Nibbles(t.account);
    NibblesInvert(t.account, []);
    PostIndexed(c.tree, c.posts, t.account, t.timestamp);
    EventKeepsInStep(c.posts, c.posts[t.account := t.timestamp], c.log, Event(t.account, false));
    if c.tree.Some? {
      AddKeepsShape(c.tree.value, ADDRESS_LENGTH, 0, k, t.timestamp);
    } else {
      assert |map[k := t.timestamp]| == 1;
    }
  }

  lemma {:induction false} WithAllKeepsSound(c: Content, taken: seq<Taken>)
    requires Sound(c)
    ensures Sound(WithAll(c, taken))
  {
    hide Sound;
    if taken != [] {
      WithAllKeepsSound(c, taken[..|taken| - 1]);
      WithKeepsSound(WithAll(c, taken[..|taken| - 1]), taken[|taken| - 1]);
    }
  }

  /** The own log has only grown, and the posts behind its old rows that are still there are unchanged. */
  ghost predicate Moves(h: History, p: Times, h': History, p': Times) {
    h <= h' && forall i :: IsLatest(h', i) && i < |h| ==>
      IsLatest(h, i) && Get(p', h[i].account) == Get(p, h[i].account)
  }

  lemma MovesOn(h: History, p: Times, h': History, p': Times, h'': History, p'': Times)
    ensures Moves(h, p, h, p)
    ensures Moves(h, p, h', p') && Moves(h', p', h'', p'') ==> Moves(h, p, h'', p'')
  {}

  lemma PostMoves(h: History, p: Times, account: Address, timestamp: nat)
    ensures Moves(h, p, h + [Event(account, false)], p[account := timestamp])
  {
    var e := Event(account, false);
    forall i | IsLatest(h + [e], i) && i < |h|
      ensures IsLatest(h, i) && Get(p[account := timestamp], h[i].account) == Get(p, h[i].account)
    {
      LatestAfter(h, e, i);
    }
  }

  lemma {:induction false} WithAllMoves(c: Content, taken: seq<Taken>)
    ensures
      var d := WithAll(c, taken);
      Moves(c.log, c.posts, d.log, d.posts) && |d.log| == |c.log| + |taken| && (c.tree.Some? ==> d.tree.Some?)
  {
    hide Moves;
    var d := WithAll(c, taken);
    MovesOn(c.log, c.posts, [], map[], [], map[]);
    if taken != [] {
      var e, t := WithAll(c, taken[..|taken| - 1]), taken[|taken| - 1];
      WithAllMoves(c, taken[..|taken| - 1]);
      PostMoves(e.log, e.posts, t.account, t.timestamp);
      MovesOn(c.log, c.posts, e.log, e.posts, d.log, d.posts);
    }
  }

  // ---- What is worth taking over ----------------------------------------------------------------------

  ghost predicate AtLeastAsNew(mine: Times, theirs: Times, account: Address) {
    account in theirs ==> account in mine && mine[account] >= theirs[account]
  }

  predicate Fresher(p: Times, from: Times, a: Address) {
    a in from && (a in p ==> from[a] > p[a])
  }

  /** The other side's post of an account, if it is newer than the own one. */
  function NewsFor(p: Times, theirs: Times, a: Address): seq<Taken> {
    if Fresher(p, theirs, a) then [Taken(a, theirs[a])] else []
  }

  /** The news in the listed rows, in their order. */
  function Wanted(p: Times, theirs: Times, rows: seq<DeltaRow>): seq<Taken> {
    if rows == [] then []
    else
      var row := rows[|rows| - 1];
      Wanted(p, theirs, rows[..|rows| - 1]) + if row.removed then [] else NewsFor(p, theirs, row.account)
  }

  /** The content of a node that has pulled everything from row `start` on. */
  ghost function Pulled(mine: Content, theirs: Times, h: History, start: nat): Content {
    WithAll(mine, Wanted(mine.posts, theirs, RowsFrom(h, start, true)))
  }

  lemma PulledMoves(mine: Content, theirs: Times, h: History, start: nat)
    ensures
      var c := Pulled(mine, theirs, h, start);
      Moves(mine.log, mine.posts, c.log, c.posts)
  {
    WithAllMoves(mine, Wanted(mine.posts, theirs, RowsFrom(h, start, true)));
  }

  /** No account has two rows. */
  ghost predicate OneEach(rows: seq<DeltaRow>) {
    forall i, j :: 0 <= i < j < |rows| ==> rows[i].account != rows[j].account
  }

  ghost predicate Mentions(rows: seq<DeltaRow>, a: Address) {
    exists i :: 0 <= i < |rows| && rows[i].account == a
  }

  lemma RowsOneEach(h: History, s: nat)
    ensures OneEach(RowsFrom(h, s, true))
  {
    hide RowsFrom;
    var rows := RowsFrom(h, s, true);
    RowsIncrease(h, s, true);
    forall i, j | 0 <= i < j < |rows| ensures rows[i].account != rows[j].account {
      RowsAreRows(h, s, rows[i]);
      RowsAreRows(h, s, rows[j]);
      assert IsLatest(h, rows[i].seqNo - 1);
    }
  }

  /** Dealing with one more row. */
  lemma WantedStep(c: Content, p: Times, theirs: Times, rows: seq<DeltaRow>, row: DeltaRow)
    ensures row.removed ==> Wanted(p, theirs, rows + [row]) == Wanted(p, theirs, rows)
    ensures !row.removed ==>
              Wanted(p, theirs, rows + [row]) == Wanted(p, theirs, rows) + NewsFor(p, theirs, row.account)
    ensures WithAll(c, Wanted(p, theirs, rows + [row])) ==
            if !row.removed && Fresher(p, theirs, row.account)
            then With(WithAll(c, Wanted(p, theirs, rows)), Taken(row.account, theirs[row.account]))
            else WithAll(c, Wanted(p, theirs, rows))
  {
    assert (rows + [row])[..|rows|] == rows && (rows + [row])[|rows|] == row;
    if !row.removed && Fresher(p, theirs, row.account) {
      WithOne(c, Wanted(p, theirs, rows), Taken(row.account, theirs[row.account]));
    } else {
      assert Wanted(p, theirs, rows) + [] == Wanted(p, theirs, rows);
    }
  }

  lemma NothingWanted(c: Content, p: Times, theirs: Times)
    ensures Wanted(p, theirs, []) == [] && WithAll(c, Wanted(p, theirs, [])) == c
  {}

  /** Taking over news changes no account without a row. */
  lemma {:induction false} OthersStay(c: Content, p: Times, theirs: Times, rows: seq<DeltaRow>, a: Address)
    requires !Mentions(rows, a)
    ensures Get(WithAll(c, Wanted(p, theirs, rows)).posts, a) == Get(c.posts, a)
  {
    hide WithAll, Wanted, AddHead, Nibbles;
    if rows == [] {
      NothingWanted(c, p, theirs);
    } else {
      var init, row := rows[..|rows| - 1], rows[|rows| - 1];
      assert rows == init + [row];
      assert rows[|rows| - 1].account != a;
      assert forall i :: 0 <= i < |init| ==> init[i] == rows[i];
      OthersStay(c, p, theirs, init, a);
      WantedStep(c, p, theirs, init, row);
    }
  }

  lemma LastIsNew(rows: seq<DeltaRow>, row: DeltaRow)
    requires OneEach(rows + [row])
    ensures !Mentions(rows, row.account)
  {
    var all := rows + [row];
    forall i | 0 <= i < |rows| ensures rows[i].account != row.account {
      assert all[i] == rows[i] && all[|rows|] == row;
    }
  }

  /** What is news after some rows was news before them. */
  lemma StillNews(c: Content, theirs: Times, rows: seq<DeltaRow>, row: DeltaRow)
    requires OneEach(rows + [row])
    ensures NewsFor(WithAll(c, Wanted(c.posts, theirs, rows)).posts, theirs, row.account) ==
            NewsFor(c.posts, theirs, row.account)
  {
    hide WithAll, Wanted;
    var q := WithAll(c, Wanted(c.posts, theirs, rows)).posts;
    LastIsNew(rows, row);
    OthersStay(c, c.posts, theirs, rows, row.account);
    assert Get(q, row.account) == Get(c.posts, row.account);
  }

  /** The next row is taken over as it would have been at the start. */
  lemma OneMoreRow(c: Content, theirs: Times, rows: seq<DeltaRow>, row: DeltaRow, t: seq<Taken>)
    requires OneEach(rows + [row])
    requires t == if row.removed then []
                  else NewsFor(WithAll(c, Wanted(c.posts, theirs, rows)).posts, theirs, row.account)
    ensures Wanted(c.posts, theirs, rows) + t == Wanted(c.posts, theirs, rows + [row])
  {
    hide Wanted, WithAll, NewsFor, OneEach;
    StillNews(c, theirs, rows, row);
    WantedStep(c, c.posts, theirs, rows, row);
  }

  /** Two pages in sequence take over what one page of all their rows would. */
  lemma {:induction false} WantedMore(c: Content, theirs: Times, rows: seq<DeltaRow>, more: seq<DeltaRow>)
    requires OneEach(rows + more)
    ensures Wanted(c.posts, theirs, rows) + Wanted(WithAll(c, Wanted(c.posts, theirs, rows)).posts, theirs, more) ==
            Wanted(c.posts, theirs, rows + more)
    decreases |more|
  {
    hide OneEach, Wanted, WithAll, NewsFor;
    var q := WithAll(c, Wanted(c.posts, theirs, rows)).posts;
    if more == [] {
      assert rows + more == rows;
      NothingWanted(c, q, theirs);
    } else {
      var init, row := more[..|more| - 1], more[|more| - 1];
      assert more == init + [row] && rows + more == rows + init + [row];
      OneEachParts(rows, init, row);
      WantedMore(c, theirs, rows, init);
      StillNews(c, theirs, rows, row);
      WantedStep(c, q, theirs, init, row);
      WantedStep(c, c.posts, theirs, rows + init, row);
    }
  }

  lemma OneEachParts(rows: seq<DeltaRow>, init: seq<DeltaRow>, row: DeltaRow)
    requires OneEach(rows + init + [row])
    ensures OneEach(rows + init) && OneEach(rows + [row])
  {
    var all := rows + init + [row];
    assert all[|rows| + |init|] == row;
    assert forall i :: 0 <= i < |rows + init| ==> all[i] == (rows + init)[i];
    assert forall i :: 0 <= i < |rows| ==> all[i] == (rows + [row])[i];
  }

  lemma {:induction false} NothingNew(p: Times, theirs: Times, rows: seq<DeltaRow>)
    requires forall a :: !Fresher(p, theirs, a)
    ensures Wanted(p, theirs, rows) == []
  {
    if rows != [] { NothingNew(p, theirs, rows[..|rows| - 1]); }
  }

  // ---- The newest posts -------------------------------------------------------------------------------

  /** The newest post of every account that either side knows. */
  function Newest(p: Times, q: Times): Times {
    map a | a in p.Keys + q.Keys :: if a in p && (a in q ==> p[a] >= q[a]) then p[a] else q[a]
  }

  lemma NewestTwice(p: Times, q: Times)
    ensures Newest(q, Newest(p, q)) == Newest(p, q)
    ensures p == q ==> Newest(p, q) == p
  {
    forall a ensures Get(Newest(q, Newest(p, q)), a) == Get(Newest(p, q), a) {}
    SameEntries(Newest(q, Newest(p, q)), Newest(p, q));
  }

  /** Everything the other side logged below the start of the pull has been taken over before. */
  ghost predicate CaughtUp(mine: Times, theirs: Times, h: History, start: int) {
    start <= |h| + 1 &&
    forall n {:trigger IsRow(h, n)} ::
      1 <= n < start && IsRow(h, n) && !h[n - 1].removed ==> AtLeastAsNew(mine, theirs, h[n - 1].account)
  }

  lemma PostIsRow(posts: Times, h: History, a: Address)
    requires InStep(posts, h) && a in posts
    ensures exists n :: 1 <= n <= |h| && IsRow(h, n) && !h[n - 1].removed && h[n - 1].account == a
  {
    var i :| 0 <= i < |h| && h[i].account == a;
    assert h[i] in h;
    var j := HasLatest(h, a);
    assert IsRow(h, j + 1);
  }

  /** A node's own pull does not undo what its peer had caught up with. */
  lemma StillCaughtUp(mine: Times, theirs: Times, theirs': Times, h: History, h': History, start: int)
    requires CaughtUp(mine, theirs, h, start) && Moves(h, theirs, h', theirs')
    ensures CaughtUp(mine, theirs', h', start)
  {
    forall n {:trigger IsRow(h', n)} | 1 <= n < start && IsRow(h', n) && !h'[n - 1].removed
      ensures AtLeastAsNew(mine, theirs', h'[n - 1].account)
    {
      assert IsLatest(h', n - 1);
      assert IsRow(h, n) && h[n - 1] == h'[n - 1];
      assert Get(theirs', h[n - 1].account) == Get(theirs, h[n - 1].account);
    }
  }

  /** Rows that carry a post. */
  ghost predicate Carries(rows: seq<DeltaRow>, a: Address) {
    exists i :: 0 <= i < |rows| && rows[i].account == a && !rows[i].removed
  }

  lemma {:induction false} TakesTheNewer(c: Content, p: Times, theirs: Times, rows: seq<DeltaRow>, a: Address)
    ensures Get(WithAll(c, Wanted(p, theirs, rows)).posts, a) ==
            if Carries(rows, a) && Fresher(p, theirs, a) then Get(theirs, a) else Get(c.posts, a)
  {
    hide WithAll, Wanted, AddHead, Nibbles, Carries;
    if rows == [] {
      NothingWanted(c, p, theirs);
      NothingCarried(a);
    } else {
      var init, row := rows[..|rows| - 1], rows[|rows| - 1];
      assert rows == init + [row];
      TakesTheNewer(c, p, theirs, init, a);
      CarriesMore(init, row, a);
      WantedStep(c, p, theirs, init, row);
    }
  }

  lemma NothingCarried(a: Address)
    ensures !Carries([], a)
  {}

  lemma CarriesMore(init: seq<DeltaRow>, row: DeltaRow, a: Address)
    ensures Carries(init + [row], a) <==> Carries(init, a) || (row.account == a && !row.removed)
  {
    var rows := init + [row];
    assert rows[|init|] == row && forall i :: 0 <= i < |init| ==> rows[i] == init[i];
  }

  /** A pull from a log that is in step leaves the puller with the newest posts of both. */
  lemma PulledIsNewest(mine: Content, theirs: Times, h: History, start: nat)
    requires InStep(theirs, h) && start >= 1 && CaughtUp(mine.posts, theirs, h, start)
    ensures Pulled(mine, theirs, h, start).posts == Newest(mine.posts, theirs)
  {
    hide RowsFrom, InStep, WithAll, Wanted;
    var rows, p := RowsFrom(h, start, true), mine.posts;
    var q := Pulled(mine, theirs, h, start).posts;
    forall a ensures Get(q, a) == Get(Newest(p, theirs), a) {
      TakesTheNewer(mine, p, theirs, rows, a);
      if Fresher(p, theirs, a) {
        PostIsRow(theirs, h, a);
        var n :| 1 <= n <= |h| && IsRow(h, n) && !h[n - 1].removed && h[n - 1].account == a;
        assert n >= start;
        RowsAreRows(h, start, RowAt(h, n));
        var i :| 0 <= i < |rows| && rows[i] == RowAt(h, n);
        assert Carries(rows, a);
      }
    }
    SameEntries(q, Newest(p, theirs));
  }

  // ---- When two peers agree ---------------------------------------------------------------------------

  /** The two nodes end with the same tree when first `a` pulls from `b`, and then `b` from `a`. */
  ghost predicate Agree(a: Content, b: Content, startA: nat, startB: nat) {
    var c := Pulled(a, b.posts, b.log, startA);
    Pulled(b, c.posts, c.log, startB).tree == c.tree
  }

  ghost predicate CanonicalHead(h: Head) {
    h.Some? ==> Canonical(h.value)
  }

  /** Every post taken over finds room in its leaf or splits it cleanly. */
  ghost predicate TakenCleanly(c: Content, taken: seq<Taken>) {
    forall i {:trigger taken[i]} :: 0 <= i < |taken| ==>
      FitsCleanly(WithAll(c, taken[..i]).tree, Nibbles(taken[i].account))
  }

  predicate FitsCleanly(h: Head, k: Tail) {
    h.Some? ==> SplitsCleanly(h.value, k)
  }

  /** A pull into a canonical tree without an unclean split. */
  ghost predicate CleanPull(mine: Content, theirs: Times, h: History, start: nat) {
    CanonicalHead(mine.tree) && TakenCleanly(mine, Wanted(mine.posts, theirs, RowsFrom(h, start, true)))
  }

  ghost predicate CleanRound(a: Content, b: Content, startA: nat, startB: nat) {
    var c := Pulled(a, b.posts, b.log, startA);
    CleanPull(a, b.posts, b.log, startA) && CleanPull(b, c.posts, c.log, startB)
  }

  lemma WithKeepsCanonical(c: Content, t: Taken)
    requires GoodHead(c.tree) && CanonicalHead(c.tree)
    ensures CanonicalHead(With(c, t).tree) <==> FitsCleanly(c.tree, Nibbles(t.account))
  {
    hide Nibbles;
    var k := Nibbles(t.account);
    NibblesInvert(t.account, []);
    if c.tree.Some? {
      AddKeepsCanonical(c.tree.value, ADDRESS_LENGTH, k, t.timestamp);
    } else {
      assert |map[k := t.timestamp]| == 1;
    }
  }

  lemma {:induction false} CleanlyKeepsCanonical(c: Content, taken: seq<Taken>)
    requires Sound(c) && CanonicalHead(c.tree) && TakenCleanly(c, taken)
    ensures CanonicalHead(WithAll(c, taken).tree)
  {
    hide Indexed, InStep, Nibbles, Canonical, FitsCleanly, GoodHead;
    if taken != [] {
      var init, t := taken[..|taken| - 1], taken[|taken| - 1];
      forall i {:trigger init[i]} | 0 <= i < |init|
        ensures FitsCleanly(WithAll(c, init[..i]).tree, Nibbles(init[i].account))
      {
        assert taken[i] == init[i] && taken[..i] == init[..i];
      }
      CleanlyKeepsCanonical(c, init);
      WithAllKeepsSound(c, init);
      assert taken[|taken| - 1] == t;
      WithKeepsCanonical(WithAll(c, init), t);
    }
  }

  lemma AddressOrNothing(h: Head, k: Tail)
    requires GoodHead(h)
    ensures |k| != ADDRESS_LENGTH ==> FindHead(h, k).None?
  {
    if h.Some? && Find(h.value, k).Some? { MerkleRemove.FoundLength(h.value, ADDRESS_LENGTH, k); }
  }

  lemma SameCanonicalHeads(h: Head, g: Head)
    requires CanonicalHead(h) && CanonicalHead(g)
    requires forall k :: FindHead(h, k) == FindHead(g, k)
    ensures h == g
  {
    if h.Some? && g.Some? {
      forall k ensures Find(h.value, k) == Find(g.value, k) { assert FindHead(h, k) == FindHead(g, k); }
      CanonicalIsUnique(h.value, g.value);
    } else if h.Some? {
      var k := CanonicalIsInhabited(h.value);
      assert FindHead(h, k) == FindHead(g, k);
    } else if g.Some? {
      var k := CanonicalIsInhabited(g.value);
      assert FindHead(h, k) == FindHead(g, k);
    }
  }

  /** Canonical trees that show the same posts are the same. */
  lemma EqualPostsEqualTrees(h: Head, g: Head, posts: Times)
    requires GoodHead(h) && GoodHead(g) && Indexed(h, posts) && Indexed(g, posts)
    requires CanonicalHead(h) && CanonicalHead(g)
    ensures h == g
  {
    hide CanonicalHead, GoodHead, Nibbles, FromNibbles;
    forall k: Tail ensures FindHead(h, k) == FindHead(g, k) {
      AddressOrNothing(h, k);
      AddressOrNothing(g, k);
      if |k| == ADDRESS_LENGTH {
        NibblesInvert(FromNibbles(k), k);
        assert FindHead(h, Nibbles(FromNibbles(k))) == Get(posts, FromNibbles(k));
        assert FindHead(g, Nibbles(FromNibbles(k))) == Get(posts, FromNibbles(k));
      }
    }
    SameCanonicalHeads(h, g);
  }

  /** Two peers whose pulls are clean agree afterwards. */
  lemma CleanPullsAgree(a: Content, b: Content, startA: nat, startB: nat)
    requires Sound(a) && Sound(b) && startA >= 1 && startB >= 1
    requires CaughtUp(a.posts, b.posts, b.log, startA) && CaughtUp(b.posts, a.posts, a.log, startB)
    requires CleanRound(a, b, startA, startB)
    ensures Agree(a, b, startA, startB)
  {
    hide GoodHead, Indexed, InStep, CaughtUp, Moves, WithAll, Wanted, RowsFrom, TakenCleanly, CanonicalHead, Newest;
    var c := Pulled(a, b.posts, b.log, startA);
    var na := Wanted(a.posts, b.posts, RowsFrom(b.log, startA, true));
    WithAllKeepsSound(a, na);
    WithAllMoves(a, na);
    CleanlyKeepsCanonical(a, na);
    var d := Pulled(b, c.posts, c.log, startB);
    var nb := Wanted(b.posts, c.posts, RowsFrom(c.log, startB, true));
    WithAllKeepsSound(b, nb);
    CleanlyKeepsCanonical(b, nb);
    StillCaughtUp(b.posts, a.posts, c.posts, a.log, c.log, startB);
    PulledIsNewest(a, b.posts, b.log, startA);
    PulledIsNewest(b, c.posts, c.log, startB);
    NewestTwice(a.posts, b.posts);
    EqualPostsEqualTrees(d.tree, c.tree, c.posts);
  }

  // ---- Two peers that never agree -----------------------------------------------------------------------

  /** A node without any content. */
  const NEW := Content([], map[], None)

  lemma NewIsSound()
    ensures Sound(NEW) && CanonicalHead(NEW.tree)
  {}

  /** Up to sixteen posts in a row stay in one leaf, with one entry for each account. */
  lemma {:induction false} FewStayInALeaf(taken: seq<Taken>)
    requires |taken| <= LEAF_CAPACITY
    ensures
      var c := WithAll(NEW, taken);
      |c.posts| <= |taken| && (c.tree.Some? ==> c.tree.value.Leaf? && |c.tree.value.entries| == |c.posts|) &&
      (c.tree.None? ==> taken == [])
  {
    hide Nibbles, Indexed, InStep, GoodHead;
    if taken != [] {
      var init, t := taken[..|taken| - 1], taken[|taken| - 1];
      var c, k := WithAll(NEW, init), Nibbles(t.account);
      FewStayInALeaf(init);
      NewIsSound();
      WithAllKeepsSound(NEW, init);
      IndexedAt(c.tree, c.posts, t.account);
      MapSize(c.posts, t.account, t.timestamp);
      if c.tree.Some? {
        MapSize(c.tree.value.entries, k, t.timestamp);
      } else {
        assert |map[k := t.timestamp]| == 1;
      }
    }
  }

  lemma IndexedAt(h: Head, posts: Times, a: Address)
    requires Indexed(h, posts)
    ensures FindHead(h, Nibbles(a)) == Get(posts, a)
  {}

  lemma MapSize<K, V>(m: map<K, V>, k: K, v: V)
    ensures |m[k := v]| == if k in m then |m| else |m| + 1
  {
    assert m[k := v].Keys == m.Keys + {k};
  }

  /** A new node takes over one post for every account of the other side. */
  lemma {:induction false} TakesOneEach(theirs: Times, rows: seq<DeltaRow>)
    requires OneEach(rows)
    ensures |WithAll(NEW, Wanted(map[], theirs, rows)).posts| == |Wanted(map[], theirs, rows)|
  {
    hide WithAll, Wanted, Nibbles, AddHead, OneEach;
    if rows == [] {
      NothingWanted(NEW, map[], theirs);
    } else {
      var init, row := rows[..|rows| - 1], rows[|rows| - 1];
      assert rows == init + [row];
      assert init + [] == init;
      OneEachParts(init, [], row);
      TakesOneEach(theirs, init);
      LastIsNew(init, row);
      OthersStay(NEW, map[], theirs, init, row.account);
      WantedStep(NEW, map[], theirs, init, row);
      var c := WithAll(NEW, Wanted(map[], theirs, init));
      assert Get(c.posts, row.account) == None;
      if !row.removed && Fresher(map[], theirs, row.account) {
        MapSize(c.posts, row.account, theirs[row.account]);
      }
    }
  }

  /** What a new node holds after pulling at most sixteen posts: they are all in one leaf. */
  lemma NewNodeHoldsALeaf(c: Content)
    requires Sound(c) && |c.posts| <= LEAF_CAPACITY
    ensures
      var d := Pulled(NEW, c.posts, c.log, 1);
      Sound(d) && d.posts == c.posts && (d.tree.Some? ==> d.tree.value.Leaf?) && CanonicalHead(d.tree)
  {
    hide WithAll, Wanted, RowsFrom, Indexed, InStep, Nibbles;
    var rows := RowsFrom(c.log, 1, true);
    var taken := Wanted(map[], c.posts, rows);
    NewIsSound();
    RowsOneEach(c.log, 1);
    TakesOneEach(c.posts, rows);
    PulledIsNewest(NEW, c.posts, c.log, 1);
    SameEntries(Newest(map[], c.posts), c.posts);
    FewStayInALeaf(taken);
    WithAllKeepsSound(NEW, taken);
  }

  /** A new node and one with at most sixteen posts agree exactly if the latter holds them in one leaf. */
  lemma NewNodeAgreesIff(c: Content)
    requires Sound(c) && |c.posts| <= 16
    ensures Agree(NEW, c, 1, 1) <==> (c.tree.Some? ==> c.tree.value.Leaf?)
    ensures Agree(c, NEW, 1, 1) <==> (c.tree.Some? ==> c.tree.value.Leaf?)
  {
    hide WithAll, Indexed, InStep, Nibbles, RowsFrom;
    var d := Pulled(NEW, c.posts, c.log, 1);
    NewNodeHoldsALeaf(c);
    NothingNew(c.posts, d.posts, RowsFrom(d.log, 1, true));
    NothingNew(c.posts, map[], RowsFrom([], 1, true));
    WithNothing(c);
    if c.tree.Some? ==> c.tree.value.Leaf? {
      EqualPostsEqualTrees(d.tree, c.tree, c.posts);
    }
  }

  lemma WithNothing(c: Content)
    ensures WithAll(c, []) == c
  {}

  ghost predicate Distinct(taken: seq<Taken>) {
    forall i, j :: 0 <= i < j < |taken| ==> taken[i].account != taken[j].account
  }

  lemma {:induction false} PostsOf(taken: seq<Taken>)
    requires Distinct(taken)
    ensures
      var p := WithAll(NEW, taken).posts;
      |p| == |taken| && (forall i :: 0 <= i < |taken| ==> taken[i].account in p) &&
      forall a :: a in p ==> exists i :: 0 <= i < |taken| && taken[i].account == a
  {
    hide AddHead, Nibbles;
    if taken != [] {
      var init, t := taken[..|taken| - 1], taken[|taken| - 1];
      PostsOf(init);
      MapSize(WithAll(NEW, init).posts, t.account, t.timestamp);
      assert forall i :: 0 <= i < |init| ==> init[i] == taken[i];
    }
  }

  /** Sixteen accounts post once each, and one of them posts again: that node and a new one never agree. */
  lemma SixteenAndOneAgain(taken: seq<Taken>, again: Taken)
    requires |taken| == 16 && Distinct(taken)
    requires exists i :: 0 <= i < |taken| && taken[i].account == again.account
    ensures
      var c := WithAll(NEW, taken + [again]);
      Sound(c) && !Agree(NEW, c, 1, 1) && !Agree(c, NEW, 1, 1)
  {
    hide WithAll, Indexed, InStep, Nibbles, Agree, AddTree, GoodHead;
    var d, c := WithAll(NEW, taken), WithAll(NEW, taken + [again]);
    NewIsSound();
    WithAllKeepsSound(NEW, taken);
    WithAllKeepsSound(NEW, taken + [again]);
    WithOne(NEW, taken, again);
    PostsOf(taken);
    FewStayInALeaf(taken);
    MapSize(d.posts, again.account, again.timestamp);
    FullLeafSplits(d.tree.value, Nibbles(again.account), again.timestamp);
    NewNodeAgreesIff(c);
  }

  lemma FullLeafSplits(t: Tree, k: Tail, v: nat)
    requires t.Leaf? && |t.entries| == LEAF_CAPACITY
    ensures AddTree(t, k, v).Node?
  {}

  function AccountOf(i: Byte): Address {
    seq(20, j => if j == 0 then i else 0)
  }

  function OnePostEach(): seq<Taken> {
    seq(LEAF_CAPACITY, i requires 0 <= i < LEAF_CAPACITY => Taken(AccountOf(i), 1))
  }

  lemma OnePostAgain()
    ensures
      var c := WithAll(NEW, OnePostEach() + [Taken(AccountOf(0), 2)]);
      Sound(c) && !Agree(NEW, c, 1, 1) && !Agree(c, NEW, 1, 1)
  {
    hide Sound, Agree, WithAll;
    var taken := OnePostEach();
    forall i, j | 0 <= i < j < |taken| ensures taken[i].account != taken[j].account {
      assert AccountOf(i)[0] == i && AccountOf(j)[0] == j;
    }
    assert taken[0].account == AccountOf(0);
    SixteenAndOneAgain(taken, Taken(AccountOf(0), 2));
  }
}
