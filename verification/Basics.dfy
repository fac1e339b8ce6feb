/** Shared vocabulary: optional values, bytes, content hashes. */
module Basics {
  datatype Option<+T> = None | Some(value: T)

  type Byte = b: int | 0 <= b < 0x100
  type Bytes = seq<Byte>

  /** A multihash, the key of every document in the store. */
  type Multihash = Bytes

  /** Unsigned integer widths of the Go source. */
  const U32: int := 0x1_0000_0000
  const U64: int := 0x1_0000_0000_0000_0000
  type Uint32 = x: int | 0 <= x < U32
  type Uint64 = x: int | 0 <= x < U64

  /** What a map says about a key: its value, or nothing. */
  function Get<K, V>(m: map<K, V>, k: K): Option<V> {
    if k in m then Some(m[k]) else None
  }

  /** The hash function of the content-addressed store never collides. */
  ghost predicate Injective<D(!new)>(hash: D -> Multihash) {
    forall x, y :: hash(x) == hash(y) ==> x == y
  }

  /** A set of nibbles, hence a set of integers below a bound, is no larger than the bound. */
  lemma {:induction false} BoundedSetSize(s: set<int>, n: nat)
    requires forall x :: x in s ==> 0 <= x < n
    ensures |s| <= n
    ensures |s| == n ==> forall x :: 0 <= x < n ==> x in s
  {
    if n == 0 {
      assert forall x :: x !in s;
    } else {
      var r := s - {n - 1};
      BoundedSetSize(r, n - 1);
      if n - 1 in s {
        assert s == r + {n - 1};
        assert |s| == |r| + 1;
      } else {
        assert s == r;
      }
    }
  }
}
