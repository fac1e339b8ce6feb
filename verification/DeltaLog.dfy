/** util/util.go (Itob, Btoi) and deltalog/log.go: the event log kept as two key ranges in one
    byte-ordered bucket, and the compacted history it stands for. */
module DeltaLogs {
  import opened Basics

  // ---- Big-endian keys ------------------------------------------------------------------------------

  ghost function Pow256(n: nat): nat {
    if n == 0 then 1 else 0x100 * Pow256(n - 1)
  }

  /** The lowest `n` bytes of `v`, most significant first. */
  function BigEndian(v: nat, n: nat): (b: Bytes)
    ensures |b| == n
  {
    if n == 0 then [] else BigEndian(v / 0x100, n - 1) + [v % 0x100]
  }

  function FromBigEndian(b: Bytes): nat {
    if b == [] then 0 else 0x100 * FromBigEndian(b[..|b| - 1]) + b[|b| - 1]
  }

  function Itob(v: Uint64): Bytes {
    BigEndian(v, 8)
  }

  /** binary.Read takes eight bytes and gives up, leaving zero, when there are fewer. */
  function Btoi(b: Bytes): Uint64 {
    if |b| < 8 then 0 else BoundedDecode(b[..8]); FromBigEndian(b[..8])
  }

  /** The order of keys in a bucket. */
  predicate Less(a: Bytes, b: Bytes) {
    b != [] && (a == [] || a[0] < b[0] || (a[0] == b[0] && Less(a[1..], b[1..])))
  }

  lemma {:induction false} BoundedDecode(b: Bytes)
    ensures FromBigEndian(b) < Pow256(|b|)
    ensures |b| == 8 ==> Pow256(|b|) == U64
  {
    if b != [] { BoundedDecode(b[..|b| - 1]); }
    assert Pow256(8) == U64 by {
      assert Pow256(4) == U32 by { assert Pow256(2) == 0x1_0000; }
    }
  }

  lemma {:induction false} DecodeInvertsEncode(v: nat, n: nat)
    requires v < Pow256(n)
    ensures FromBigEndian(BigEndian(v, n)) == v
  {
    if n > 0 { DecodeInvertsEncode(v / 0x100, n - 1); }
  }

  /** Btoi inverts Itob. */
  lemma BtoiInvertsItob(v: Uint64)
    ensures Btoi(Itob(v)) == v
  {
    BoundedDecode(Itob(v));
    DecodeInvertsEncode(v, 8);
    assert Itob(v)[..8] == Itob(v);
  }

  lemma {:induction false} LessSnoc(a: Bytes, b: Bytes, x: Byte, y: Byte)
    requires |a| == |b|
    ensures Less(a + [x], b + [y]) <==> Less(a, b) || (a == b && x < y)
  {
    if a != [] {
      assert (a + [x])[1..] == a[1..] + [x] && (b + [y])[1..] == b[1..] + [y];
      assert a == [a[0]] + a[1..] && b == [b[0]] + b[1..];
      LessSnoc(a[1..], b[1..], x, y);
    } else {
      assert (a + [x])[1..] == [] && (b + [y])[1..] == [];
    }
  }

  lemma {:induction false} BigEndianKeepsOrder(u: nat, v: nat, n: nat)
    requires u < Pow256(n) && v < Pow256(n)
    ensures Less(BigEndian(u, n), BigEndian(v, n)) <==> u < v
  {
    if n > 0 {
      BigEndianKeepsOrder(u / 0x100, v / 0x100, n - 1);
      LessSnoc(BigEndian(u / 0x100, n - 1), BigEndian(v / 0x100, n - 1), u % 0x100, v % 0x100);
      if u / 0x100 != v / 0x100 && BigEndian(u / 0x100, n - 1) == BigEndian(v / 0x100, n - 1) {
        DecodeInvertsEncode(u / 0x100, n - 1);
        DecodeInvertsEncode(v / 0x100, n - 1);
      }
    }
  }

  /** The byte order of keys is the numeric order of sequence numbers. */
  lemma ItobKeepsOrder(u: Uint64, v: Uint64)
    ensures Less(Itob(u), Itob(v)) <==> u < v
    ensures Itob(u) == Itob(v) <==> u == v
  {
    BoundedDecode(Itob(u));
    BigEndianKeepsOrder(u, v, 8);
    BtoiInvertsItob(u);
    BtoiInvertsItob(v);
  }

  // ---- The two key ranges ---------------------------------------------------------------------------

  type Address = a: Bytes | |a| == 20 witness seq(20, _ => 0)

  type Bucket = map<Bytes, Bytes>

  /** 0x01[seqNo] -> account and removal flag */
  function LogKey(seqNo: Uint64): Bytes {
    [0x01] + Itob(seqNo)
  }

  /** 0x02[account] -> seqNo */
  function IndexKey(account: Address): Bytes {
    [0x02] + account
  }

  function RowData(account: Address, removed: bool): Bytes {
    account + [if removed then 0x01 else 0x00]
  }

  lemma KeyFacts(u: Uint64, v: Uint64, a: Address, b: Address)
    ensures LogKey(u)[0] == 0x01 && LogKey(u)[1..] == Itob(u) && Btoi(LogKey(u)[1..]) == u
    ensures LogKey(u) == LogKey(v) <==> u == v
    ensures Less(LogKey(u), LogKey(v)) <==> u < v
    ensures IndexKey(a)[0] == 0x02 && IndexKey(a)[1..] == a
    ensures IndexKey(a) == IndexKey(b) <==> a == b
    ensures LogKey(u) != IndexKey(a) && Less(LogKey(u), IndexKey(a)) && !Less(IndexKey(a), LogKey(u))
    ensures Less(LogKey(u), [0x02]) && !Less(IndexKey(a), [0x02])
    ensures LogKey(u) == [0x01] + Itob(u) && LogKey(v) == [0x01] + Itob(v)
    ensures LogKey(u) != IndexKey(b) && LogKey(v) != IndexKey(a) && LogKey(v) != IndexKey(b)
  {
    BtoiInvertsItob(u);
    ItobKeepsOrder(u, v);
    assert LogKey(u)[1..] == Itob(u) && LogKey(v)[1..] == Itob(v);
    assert IndexKey(a)[1..] == a && IndexKey(b)[1..] == b;
  }

  lemma RowFacts(account: Address, removed: bool)
    ensures |RowData(account, removed)| == 21
    ensures RowData(account, removed)[..20] == account
    ensures RowData(account, removed)[20] == 0x01 <==> removed
  {}

  lemma {:induction false} LessIsTotal(a: Bytes, b: Bytes)
    ensures !(Less(a, b) && Less(b, a))
    ensures Less(a, b) || Less(b, a) || a == b
    ensures !Less(a, a)
  {
    if a != [] && b != [] {
      LessIsTotal(a[1..], b[1..]);
      LessIsTotal(a[1..], a[1..]);
      assert a == [a[0]] + a[1..] && b == [b[0]] + b[1..];
    } else if a != [] {
      LessIsTotal(a[1..], a[1..]);
    }
  }

  lemma {:induction false} LessIsTransitive(a: Bytes, b: Bytes, c: Bytes)
    requires Less(a, b) && Less(b, c)
    ensures Less(a, c)
  {
    if a != [] && a[0] == b[0] && b[0] == c[0] { LessIsTransitive(a[1..], b[1..], c[1..]); }
  }

  // ---- History and its compaction -------------------------------------------------------------------

  /** One call of Update. The event at position i of a history has sequence number i + 1. */
  datatype Event = Event(account: Address, removed: bool)
  type History = seq<Event>

  ghost predicate IsLatest(h: History, i: int) {
    0 <= i < |h| && forall j :: i < j < |h| ==> h[j].account != h[i].account
  }

  ghost predicate KeyOf(h: History, i: int, k: Bytes) {
    IsLatest(h, i) && i + 1 < U64 && (k == LogKey(i + 1) || k == IndexKey(h[i].account))
  }

  ghost predicate Named(h: History, k: Bytes) {
    exists i :: KeyOf(h, i, k)
  }

  ghost predicate NothingElse(b: Bucket, h: History) {
    forall k {:trigger Named(h, k)} :: k in b ==> Named(h, k)
  }

  ghost predicate RowsOf(b: Bucket, h: History, i: int)
    requires 0 <= i < |h| < U64
  {
    LogKey(i + 1) in b && b[LogKey(i + 1)] == RowData(h[i].account, h[i].removed) &&
    IndexKey(h[i].account) in b && b[IndexKey(h[i].account)] == Itob(i + 1)
  }

  /** The bucket holds one row and one index entry for each account, both for its latest event,
      and nothing else. */
  ghost predicate Compaction(b: Bucket, h: History) {
    |h| < U64 && NothingElse(b, h) && forall i :: IsLatest(h, i) ==> RowsOf(b, h, i)
  }

  lemma {:induction false} HasLatest(h: History, account: Address) returns (i: nat)
    requires exists e :: e in h && e.account == account
    ensures IsLatest(h, i) && h[i].account == account
  {
    if h[|h| - 1].account == account {
      i := |h| - 1;
    } else {
      var init := h[..|h| - 1];
      var e :| e in h && e.account == account;
      assert e in init;
      i := HasLatest(init, account);
    }
  }

  /** Rows and index entries are mutually inverse, each account has exactly one row, and that row is its
      latest event. */
  lemma CompactionIsExact(b: Bucket, h: History, account: Address, n: Uint64)
    requires Compaction(b, h)
    ensures IndexKey(account) in b && b[IndexKey(account)] == Itob(n)
            <==> LogKey(n) in b && |b[LogKey(n)]| == 21 && b[LogKey(n)][..20] == account
    ensures LogKey(n) in b ==>
              1 <= n <= |h| && IsLatest(h, n - 1) && b[LogKey(n)] == RowData(h[n - 1].account, h[n - 1].removed)
    ensures IndexKey(account) in b <==> exists e :: e in h && e.account == account
  {
    hide LogKey, IndexKey, RowData, Itob, Btoi;
    if LogKey(n) in b { RowIsLatest(b, h, n); }
    if IndexKey(account) in b {
      var i := IndexIsLatest(b, h, account);
      KeyFacts(i + 1, n, account, account);
      ItobKeepsOrder(i + 1, n);
      RowFacts(account, h[i].removed);
      assert h[i] in h;
    }
    if LogKey(n) in b { RowFacts(h[n - 1].account, h[n - 1].removed); }
    if exists e :: e in h && e.account == account {
      var i := HasLatest(h, account);
    }
  }

  lemma RowsOfIs(b: Bucket, h: History, i: int)
    requires 0 <= i < |h| < U64 && RowsOf(b, h, i)
    ensures LogKey(i + 1) in b && b[LogKey(i + 1)] == RowData(h[i].account, h[i].removed)
    ensures IndexKey(h[i].account) in b && b[IndexKey(h[i].account)] == Itob(i + 1)
  {}

  lemma RowIsLatest(b: Bucket, h: History, n: Uint64)
    requires Compaction(b, h) && LogKey(n) in b
    ensures 1 <= n <= |h| && IsLatest(h, n - 1) && b[LogKey(n)] == RowData(h[n - 1].account, h[n - 1].removed)
  {
    hide LogKey, IndexKey, RowData, Itob, Btoi, RowsOf;
    assert Named(h, LogKey(n));
    var i :| KeyOf(h, i, LogKey(n));
    RowsOfIs(b, h, i);
    KeyFacts(n, i + 1, h[i].account, h[i].account);
  }

  lemma IndexIsLatest(b: Bucket, h: History, account: Address) returns (i: nat)
    requires Compaction(b, h) && IndexKey(account) in b
    ensures IsLatest(h, i) && h[i].account == account && b[IndexKey(account)] == Itob(i + 1)
  {
    hide LogKey, IndexKey, RowData, Itob, Btoi, RowsOf;
    assert Named(h, IndexKey(account));
    i :| KeyOf(h, i, IndexKey(account));
    RowsOfIs(b, h, i);
    KeyFacts(i + 1, i + 1, account, h[i].account);
  }

  /** The largest row number is the length of the history. */
  lemma LastRow(b: Bucket, h: History)
    requires Compaction(b, h) && h != []
    ensures LogKey(|h|) in b
    ensures forall n: Uint64 :: LogKey(n) in b ==> n <= |h|
  {
    hide LogKey, IndexKey, RowData, Itob, Btoi;
    assert IsLatest(h, |h| - 1);
    forall n: Uint64 | LogKey(n) in b ensures n <= |h| { RowIsLatest(b, h, n); }
  }

  /** What Update does to the bucket. */
  function Updated(b: Bucket, n: Uint64, account: Address, removed: bool): Bucket {
    var b' := if IndexKey(account) in b then b - {[0x01] + b[IndexKey(account)]} else b;
    b'[LogKey(n) := RowData(account, removed)][IndexKey(account) := Itob(n)]
  }

  lemma LatestAfter(h: History, e: Event, i: nat)
    ensures IsLatest(h + [e], i) <==> i == |h| || (IsLatest(h, i) && h[i].account != e.account)
  {
    if IsLatest(h + [e], i) && i < |h| {
      assert (h + [e])[|h|].account != (h + [e])[i].account;
      forall j | i < j < |h| ensures h[j].account != h[i].account { assert (h + [e])[j] == h[j]; }
    }
  }

  lemma UpdateCompacts(b: Bucket, h: History, e: Event)
    requires Compaction(b, h) && |h| + 1 < U64
    ensures Compaction(Updated(b, |h| + 1, e.account, e.removed), h + [e])
  {
    hide LogKey, IndexKey, RowData, Itob, Btoi, Updated, KeyOf, RowsOf;
    var n, h', b' := |h| + 1, h + [e], Updated(b, |h| + 1, e.account, e.removed);
    forall i | IsLatest(h', i) ensures RowsOf(b', h', i) {
      UpdateKeepsRow(b, h, e, i);
    }
    forall k | k in b' ensures Named(h', k) {
      var i := UpdateAddsNoKey(b, h, e, k);
    }
  }

  lemma UpdateKeepsRow(b: Bucket, h: History, e: Event, i: nat)
    requires Compaction(b, h) && |h| + 1 < U64 && IsLatest(h + [e], i)
    ensures RowsOf(Updated(b, |h| + 1, e.account, e.removed), h + [e], i)
  {
    hide LogKey, IndexKey, RowData, Itob, Btoi;
    LatestAfter(h, e, i);
    KeyFacts(i + 1, |h| + 1, (h + [e])[i].account, e.account);
    if i < |h| {
      RowsOfIs(b, h, i);
      if IndexKey(e.account) in b {
        var j := IndexIsLatest(b, h, e.account);
        KeyFacts(i + 1, j + 1, h[i].account, e.account);
      }
    }
  }

  lemma UpdateAddsNoKey(b: Bucket, h: History, e: Event, k: Bytes) returns (i: nat)
    requires Compaction(b, h) && |h| + 1 < U64 && k in Updated(b, |h| + 1, e.account, e.removed)
    ensures KeyOf(h + [e], i, k)
  {
    hide LogKey, IndexKey, RowData, Itob, Btoi;
    LatestAfter(h, e, |h|);
    i := |h|;
    if k != LogKey(|h| + 1) && k != IndexKey(e.account) {
      assert Named(h, k);
      i :| KeyOf(h, i, k);
      LatestAfter(h, e, i);
      KeyFacts(i + 1, |h| + 1, h[i].account, e.account);
      if h[i].account == e.account {
        RowsOfIs(b, h, i);
      }
    }
  }

  // ---- Reading the log in numeric order -------------------------------------------------------------

  datatype DeltaRow = DeltaRow(seqNo: int, account: Address, removed: bool)

  const PAGE_SIZE: nat := 10

  ghost predicate IsRow(h: History, n: int) {
    IsLatest(h, n - 1)
  }

  /** The number in a log key. */
  function SeqNoOf(k: Bytes): Uint64 {
    if k == [] then 0 else Btoi(k[1..])
  }

  /** Row number `s` exists and passes the removal filter. */
  ghost predicate Listed(h: History, s: int, includeRemovals: bool) {
    IsRow(h, s) && (includeRemovals || !h[s - 1].removed)
  }

  /** The listed rows numbered at least `s`, in increasing order. */
  ghost function RowsFrom(h: History, s: nat, includeRemovals: bool): seq<DeltaRow>
    decreases |h| + 1 - s
  {
    if s > |h| then []
    else
      (if Listed(h, s, includeRemovals) then [DeltaRow(s, h[s - 1].account, h[s - 1].removed)] else [])
      + RowsFrom(h, s + 1, includeRemovals)
  }

  function First<T>(rows: seq<T>, n: nat): seq<T> {
    if |rows| <= n then rows else rows[..n]
  }

  function Reverse<T>(rows: seq<T>): seq<T> {
    if rows == [] then [] else Reverse(rows[1..]) + [rows[0]]
  }

  function Accounts(rows: seq<DeltaRow>): seq<Address> {
    seq(|rows|, i requires 0 <= i < |rows| => rows[i].account)
  }

  lemma RowsStep(h: History, s: nat, includeRemovals: bool)
    requires s <= |h|
    ensures Listed(h, s, includeRemovals) ==>
              (s > 0 && RowsFrom(h, s, includeRemovals) ==
                        [DeltaRow(s, h[s - 1].account, h[s - 1].removed)] + RowsFrom(h, s + 1, includeRemovals))
    ensures !Listed(h, s, includeRemovals) ==> RowsFrom(h, s, includeRemovals) == RowsFrom(h, s + 1, includeRemovals)
  {}

  lemma RowsOver(h: History, s: nat, includeRemovals: bool)
    requires s > |h|
    ensures RowsFrom(h, s, includeRemovals) == []
  {}

  /** Numbers increase strictly: none occurs twice. */
  ghost predicate Increasing(rows: seq<DeltaRow>, lo: int, hi: int) {
    (forall i :: 0 <= i < |rows| ==> lo <= rows[i].seqNo < hi) &&
    (forall i, j :: 0 <= i < j < |rows| ==> rows[i].seqNo < rows[j].seqNo)
  }

  /** Rows are numbered increasingly, from `s` on. */
  lemma {:induction false} RowsIncrease(h: History, s: nat, includeRemovals: bool)
    ensures Increasing(RowsFrom(h, s, includeRemovals), s, |h| + 1)
    decreases |h| + 1 - s
  {
    hide RowsFrom, Listed;
    if s > |h| {
      RowsOver(h, s, includeRemovals);
    } else {
      RowsIncrease(h, s + 1, includeRemovals);
      RowsStep(h, s, includeRemovals);
      var rows, rest := RowsFrom(h, s, includeRemovals), RowsFrom(h, s + 1, includeRemovals);
      if Listed(h, s, includeRemovals) {
        assert forall i :: 1 <= i < |rows| ==> rows[i] == rest[i - 1];
      }
    }
  }

  /** Every listed row is there. */
  lemma {:induction false} RowsComplete(h: History, s: nat, includeRemovals: bool, n: nat)
    requires s <= n && Listed(h, n, includeRemovals)
    ensures DeltaRow(n, h[n - 1].account, h[n - 1].removed) in RowsFrom(h, s, includeRemovals)
    decreases n - s
  {
    if s < n { RowsComplete(h, s + 1, includeRemovals, n); }
  }

  lemma {:induction false} SkipRows(h: History, s: nat, t: nat, includeRemovals: bool)
    requires s <= t && forall i :: s <= i < t ==> !Listed(h, i, includeRemovals)
    ensures RowsFrom(h, s, includeRemovals) == RowsFrom(h, t, includeRemovals)
    decreases t - s
  {
    if s < t { SkipRows(h, s + 1, t, includeRemovals); }
  }

  // ---- The cursor -----------------------------------------------------------------------------------

  ghost predicate AtLeast(k: Bytes, from: Bytes, strictly: bool) {
    Less(from, k) || (!strictly && k == from)
  }

  /** Where Cursor.Seek (not strictly) and Cursor.Next (strictly) land. */
  ghost predicate LandsOn(b: Bucket, from: Bytes, strictly: bool, r: Option<Bytes>) {
    match r
    case Some(k) =>
      k in b && AtLeast(k, from, strictly) && forall j :: j in b && AtLeast(j, from, strictly) ==> !Less(j, k)
    case None => forall j :: j in b ==> !AtLeast(j, from, strictly)
  }

  /** Where Cursor.Prev lands. */
  ghost predicate LandsBefore(b: Bucket, from: Bytes, r: Option<Bytes>) {
    match r
    case Some(k) => k in b && Less(k, from) && forall j :: j in b && Less(j, from) ==> !Less(k, j)
    case None => forall j :: j in b ==> !Less(j, from)
  }

  method Forward(b: Bucket, from: Bytes, strictly: bool) returns (r: Option<Bytes>)
    ensures LandsOn(b, from, strictly, r)
  {
    hide Less;
    r := None;
    var todo := b.Keys;
    while todo != {}
      invariant todo <= b.Keys
      invariant r.Some? ==> r.value in b && AtLeast(r.value, from, strictly)
      invariant r.Some? ==> forall j :: j in b.Keys - todo && AtLeast(j, from, strictly) ==> !Less(j, r.value)
      invariant r.None? ==> forall j :: j in b.Keys - todo ==> !AtLeast(j, from, strictly)
      decreases |todo|
    {
      var k :| k in todo;
      todo := todo - {k};
      LessIsTotal(k, k);
      if (Less(from, k) || (!strictly && k == from)) && (r.None? || Less(k, r.value)) {
        if r.Some? {
          forall j | Less(j, k) ensures Less(j, r.value) { LessIsTransitive(j, k, r.value); }
        }
        r := Some(k);
      }
    }
  }

  method Backward(b: Bucket, from: Bytes) returns (r: Option<Bytes>)
    ensures LandsBefore(b, from, r)
  {
    hide Less;
    r := None;
    var todo := b.Keys;
    while todo != {}
      invariant todo <= b.Keys
      invariant r.Some? ==> r.value in b && Less(r.value, from)
      invariant r.Some? ==> forall j :: j in b.Keys - todo && Less(j, from) ==> !Less(r.value, j)
      invariant r.None? ==> forall j :: j in b.Keys - todo ==> !Less(j, from)
      decreases |todo|
    {
      var k :| k in todo;
      todo := todo - {k};
      LessIsTotal(k, k);
      if Less(k, from) && (r.None? || Less(r.value, k)) {
        if r.Some? {
          forall j | Less(k, j) ensures Less(r.value, j) { LessIsTransitive(r.value, k, j); }
        }
        r := Some(k);
      }
    }
  }

  /** Which row number a forward step from row `s` reaches: the next row, or the end of the row range. */
  ghost function Reached(h: History, r: Option<Bytes>): int {
    if r.Some? && r.value != [] && r.value[0] == 0x01 then SeqNoOf(r.value) else |h| + 1
  }

  lemma KeyKinds(b: Bucket, h: History, k: Bytes)
    requires Compaction(b, h) && k in b
    ensures k != []
    ensures k[0] == 0x01 ==> k == LogKey(SeqNoOf(k)) && IsLatest(h, SeqNoOf(k) - 1) &&
                             b[k] == RowData(h[SeqNoOf(k) - 1].account, h[SeqNoOf(k) - 1].removed)
    ensures k[0] != 0x01 ==> k[0] == 0x02 && |k| == 21 && k == IndexKey(k[1..])
  {
    hide LogKey, IndexKey, RowData, Itob, Btoi, RowsOf;
    assert Named(h, k);
    var i :| KeyOf(h, i, k);
    KeyFacts(i + 1, i + 1, h[i].account, h[i].account);
    RowsOfIs(b, h, i);
  }

  /** A forward step skips no row and never strays from the row range into the index range. */
  lemma ForwardReaches(b: Bucket, h: History, s: Uint64, strictly: bool, r: Option<Bytes>, i: int)
    requires Compaction(b, h) && LandsOn(b, LogKey(s), strictly, r)
    ensures r.Some? && r.value != [] && r.value[0] == 0x01 ==>
              Reached(h, r) >= (if strictly then s + 1 else s) && Reached(h, r) <= |h|
    ensures (if strictly then s + 1 else s) <= i < Reached(h, r) ==> !IsRow(h, i)
  {
    hide LogKey, IndexKey, RowData, Itob, Btoi, RowsOf, Less;
    if r.Some? { KeyKinds(b, h, r.value); }
    var from := if strictly then s + 1 else s;
    if r.Some? && r.value[0] == 0x01 {
      var t := SeqNoOf(r.value);
      KeyFacts(s, t, h[t - 1].account, h[t - 1].account);
    }
    if from <= i < Reached(h, r) && IsRow(h, i) {
      RowsOfIs(b, h, i - 1);
      KeyFacts(s, i, h[i - 1].account, h[i - 1].account);
      assert AtLeast(LogKey(i), LogKey(s), strictly);
      if r.Some? && r.value[0] == 0x01 {
        KeyFacts(i, SeqNoOf(r.value), h[i - 1].account, h[i - 1].account);
      } else if r.Some? {
        KeyFacts(i, i, r.value[1..], r.value[1..]);
      }
    }
  }

  lemma BackwardReaches(b: Bucket, h: History, t: nat, from: Bytes, r: Option<Bytes>, i: int)
    requires Compaction(b, h) && LandsBefore(b, from, r)
    requires if t <= |h| then from == LogKey(t) else from == [0x02]
    ensures r.Some? ==> r.value != [] && r.value[0] == 0x01
    ensures r.Some? ==> r.value == LogKey(SeqNoOf(r.value)) && SeqNoOf(r.value) < t
    ensures (if r.Some? then SeqNoOf(r.value) else 0) < i < t ==> !IsRow(h, i)
  {
    hide LogKey, IndexKey, RowData, Itob, Btoi, RowsOf, Less;
    if r.Some? {
      KeyKinds(b, h, r.value);
      if r.value[0] == 0x01 {
        var n := SeqNoOf(r.value);
        KeyFacts(n, if t <= |h| then t else n, h[n - 1].account, h[n - 1].account);
      } else {
        KeyFacts(if t <= |h| then t else 1, 1, r.value[1..], r.value[1..]);
      }
    }
    if (if r.Some? then SeqNoOf(r.value) else 0) < i < t && IsRow(h, i) {
      RowsOfIs(b, h, i - 1);
      KeyFacts(i, if t <= |h| then t else i, h[i - 1].account, h[i - 1].account);
      if r.Some? {
        KeyFacts(SeqNoOf(r.value), i, h[i - 1].account, h[i - 1].account);
      }
    }
  }

  lemma ReverseSnoc<T>(a: seq<T>, x: T)
    ensures Reverse([x] + a) == Reverse(a) + [x]
  {
    assert ([x] + a)[1..] == a;
  }

  lemma {:induction false} FromTheEnd<T>(rows: seq<T>, k: nat)
    requires k < |rows|
    ensures |Reverse(rows)| == |rows| && Reverse(rows)[k] == rows[|rows| - 1 - k]
  {
    if |rows| > 1 { FromTheEnd(rows[1..], if k < |rows| - 1 then k else 0); }
  }

  lemma LatestFirst(rows: seq<DeltaRow>)
    ensures |Accounts(Reverse(rows))| == |rows|
    ensures forall k :: 0 <= k < |rows| ==> Accounts(Reverse(rows))[k] == rows[|rows| - 1 - k].account
  {
    forall k | 0 <= k < |rows|
      ensures |Reverse(rows)| == |rows| && Accounts(Reverse(rows))[k] == rows[|rows| - 1 - k].account
    {
      FromTheEnd(rows, k);
    }
  }

  lemma AccountsSnoc(a: seq<DeltaRow>, x: DeltaRow)
    ensures Accounts(a + [x]) == Accounts(a) + [x.account]
  {}

  lemma FirstOfMore<T>(a: seq<T>, b: seq<T>, n: nat)
    requires |a| == n
    ensures First(a + b, n) == a
  {}

  // ---- The code -------------------------------------------------------------------------------------

  class DeltaLog {
    var bucket: Bucket

    /** bbolt's own sequence of the bucket, and the number announced to peers. */
    var sequence: nat
    var latestSequenceNo: nat

    ghost var history: History

    constructor ()
      ensures Valid() && history == []
    {
      bucket, sequence, latestSequenceNo := map[], 0, 0;
      history := [];
    }

    ghost predicate Valid()
      reads this
    {
      Compaction(bucket, history) && sequence == latestSequenceNo == |history|
    }

    /** Record an event: the bucket is again exactly the compaction of the whole history. */
    method Update(account: Address, isRemoval: bool) returns (seqNo: Uint64)
      requires Valid() && |history| + 1 < U64
      modifies this
      ensures Valid() && history == old(history) + [Event(account, isRemoval)]
      ensures seqNo == |history|
    {
      UpdateCompacts(bucket, history, Event(account, isRemoval));
      hide Compaction, LogKey, IndexKey, Itob;
      sequence := sequence + 1;
      seqNo := sequence;
      latestSequenceNo := seqNo;
      var indexKey := IndexKey(account);
      ghost var before := bucket;
      if indexKey in bucket {
        var oldLogKey := [0x01] + bucket[indexKey];
        bucket := bucket - {oldLogKey};
      }
      bucket := bucket[LogKey(seqNo) := RowData(account, isRemoval)];
      bucket := bucket[IndexKey(account) := Itob(seqNo)];
      history := history + [Event(account, isRemoval)];
    }

    /** The first ten matching rows numbered at least `startSequence`, in increasing order. */
    method GetBatch(startSequence: Uint64, includeRemovals: bool) returns (results: seq<DeltaRow>)
      requires Valid()
      ensures results == First(RowsFrom(history, startSequence, includeRemovals), PAGE_SIZE)
      ensures results <= RowsFrom(history, startSequence, includeRemovals) && |results| <= 10
      ensures |results| < 10 ==> results == RowsFrom(history, startSequence, includeRemovals)
    {
      hide Compaction, LogKey, IndexKey, Itob, Btoi, RowData, RowsFrom, LandsOn;
      results := [];
      var k := Forward(bucket, LogKey(startSequence), false);
      ghost var all := RowsFrom(history, startSequence, includeRemovals);
      ForwardSkips(bucket, history, startSequence, false, k, includeRemovals);
      while k.Some?
        invariant k.Some? ==> k.value in bucket
        invariant all == results + RowsFrom(history, Reached(history, k), includeRemovals)
        invariant |results| < PAGE_SIZE
        decreases if k.Some? then |history| + 2 - Reached(history, k) else 0
      {
        KeyKinds(bucket, history, k.value);
        if k.value[0] == 0x02 {
          break;
        }
        var seqNo: int := SeqNoOf(k.value);
        var row := bucket[k.value];
        RowFacts(history[seqNo - 1].account, history[seqNo - 1].removed);
        var isRemoval := row[20] == 0x01;
        TakeRow(history, seqNo, includeRemovals);
        if includeRemovals || !isRemoval {
          results := results + [DeltaRow(seqNo, row[..20], isRemoval)];
          if |results| >= PAGE_SIZE {
            FirstOfMore(results, RowsFrom(history, seqNo + 1, includeRemovals), PAGE_SIZE);
            return;
          }
        }
        k := Forward(bucket, LogKey(seqNo), true);
        ForwardSkips(bucket, history, seqNo, true, k, includeRemovals);
      }
      NoMoreRows(history, includeRemovals);
    }

    /** The accounts of all matching rows, latest first; the requested count plays no part. */
    method GetRecent(count: nat, includeRemovals: bool) returns (results: seq<Address>)
      requires Valid()
      ensures results == Accounts(Reverse(RowsFrom(history, 1, includeRemovals)))
      ensures
        ghost var rows := RowsFrom(history, 1, includeRemovals);
        |results| == |rows| && forall k :: 0 <= k < |rows| ==> results[k] == rows[|rows| - 1 - k].account
    {
      hide Compaction, LogKey, IndexKey, Itob, Btoi, RowData, RowsFrom, LandsBefore, Reverse, Accounts;
      results := [];
      ghost var t := |history| + 1;
      NoMoreRows(history, includeRemovals);
      var k := Backward(bucket, [0x02]);
      BackwardSkips(bucket, history, t, [0x02], k, includeRemovals);
      while k.Some?
        invariant k.Some? ==> k.value in bucket && k.value != [] && k.value[0] == 0x01 && SeqNoOf(k.value) < t
        invariant var n := if k.Some? then SeqNoOf(k.value) + 1 else 1;
                  results == Accounts(Reverse(RowsFrom(history, n, includeRemovals)))
        decreases if k.Some? then SeqNoOf(k.value) + 1 else 0
      {
        KeyKinds(bucket, history, k.value);
        var row := bucket[k.value];
        t := SeqNoOf(k.value);
        RowFacts(history[t - 1].account, history[t - 1].removed);
        TakeRow(history, t, includeRemovals);
        if includeRemovals || row[20] != 0x01 {
          ReverseSnoc(RowsFrom(history, t + 1, includeRemovals), DeltaRow(t, row[..20], row[20] == 0x01));
          AccountsSnoc(Reverse(RowsFrom(history, t + 1, includeRemovals)), DeltaRow(t, row[..20], row[20] == 0x01));
          results := results + [row[..20]];
        }
        assert results == Accounts(Reverse(RowsFrom(history, t, includeRemovals)));
        k := Backward(bucket, k.value);
        BackwardSkips(bucket, history, t, LogKey(t), k, includeRemovals);
      }
      LatestFirst(RowsFrom(history, 1, includeRemovals));
    }
  }

  lemma TakeRow(h: History, s: nat, includeRemovals: bool)
    requires IsRow(h, s)
    ensures includeRemovals || !h[s - 1].removed ==>
              RowsFrom(h, s, includeRemovals) ==
              [DeltaRow(s, h[s - 1].account, h[s - 1].removed)] + RowsFrom(h, s + 1, includeRemovals)
    ensures !(includeRemovals || !h[s - 1].removed) ==>
              RowsFrom(h, s, includeRemovals) == RowsFrom(h, s + 1, includeRemovals)
  {}

  lemma NoMoreRows(h: History, includeRemovals: bool)
    ensures RowsFrom(h, |h| + 1, includeRemovals) == []
    ensures Accounts(Reverse([])) == []
  {}

  lemma ForwardSkips(b: Bucket, h: History, s: Uint64, strictly: bool, r: Option<Bytes>, includeRemovals: bool)
    requires Compaction(b, h) && LandsOn(b, LogKey(s), strictly, r)
    ensures r.Some? ==> r.value in b
    ensures 0 <= Reached(h, r) <= |h| + 1
    ensures strictly && s <= |h| ==> Reached(h, r) > s
    ensures RowsFrom(h, if strictly then s + 1 else s, includeRemovals) == RowsFrom(h, Reached(h, r), includeRemovals)
  {
    hide Compaction, LogKey, RowsFrom;
    var from := if strictly then s + 1 else s;
    forall i ensures from <= i < Reached(h, r) ==> !IsRow(h, i) { ForwardReaches(b, h, s, strictly, r, i); }
    ForwardReaches(b, h, s, strictly, r, 0);
    if r.Some? { KeyKinds(b, h, r.value); }
    if from <= Reached(h, r) {
      SkipRows(h, from, Reached(h, r), includeRemovals);
    } else {
      PastTheEnd(h, from, includeRemovals);
      PastTheEnd(h, Reached(h, r), includeRemovals);
    }
  }

  lemma PastTheEnd(h: History, s: nat, includeRemovals: bool)
    requires s > |h|
    ensures RowsFrom(h, s, includeRemovals) == []
  {}

  lemma BackwardSkips(b: Bucket, h: History, t: nat, from: Bytes, r: Option<Bytes>, includeRemovals: bool)
    requires Compaction(b, h) && LandsBefore(b, from, r)
    requires t <= |h| + 1 && if t <= |h| then from == LogKey(t) else from == [0x02]
    ensures r.Some? ==> r.value in b && r.value != [] && r.value[0] == 0x01
    ensures r.Some? ==> SeqNoOf(r.value) < t && r.value == LogKey(SeqNoOf(r.value))
    ensures var n := if r.Some? then SeqNoOf(r.value) + 1 else 1;
            t > 0 ==> RowsFrom(h, n, includeRemovals) == RowsFrom(h, t, includeRemovals)
  {
    hide Compaction, LogKey, RowsFrom, Btoi;
    var n := if r.Some? then SeqNoOf(r.value) + 1 else 1;
    forall i ensures n <= i < t ==> !IsRow(h, i) { BackwardReaches(b, h, t, from, r, i); }
    BackwardReaches(b, h, t, from, r, 0);
    if t > 0 { SkipRows(h, n, t, includeRemovals); }
  }
}
