/** Results, time units and the machine integers the Go code computes with. */
module Base {
  datatype Option<+T> = None | Some(value: T)
  datatype Result<+T, +E> = Ok(value: T) | Err(error: E)

  // Durations and clock readings are whole nanoseconds, as in Go's time package.
  const MILLISECOND := 1_000_000
  const SECOND := 1_000_000_000
  const MINUTE := 60_000_000_000
  const HOUR := 3_600_000_000_000
  const DAY := 86_400_000_000_000

  lemma UnitsAgree()
    ensures SECOND == 1_000 * MILLISECOND && MINUTE == 60 * SECOND && HOUR == 60 * MINUTE && DAY == 24 * HOUR
  {
  }

  const MAX_INT64 := 0x7FFF_FFFF_FFFF_FFFF
  const MIN_INT64 := -0x8000_0000_0000_0000

  /** Two's complement wrap-around of a 64-bit Go int, int64 or time.Duration. */
  function Wrap64(x: int): int {
    (x - MIN_INT64) % 0x1_0000_0000_0000_0000 + MIN_INT64
  }

  /** Time.UnixMilli: nanoseconds since the epoch rounded down to milliseconds. */
  function UnixMilli(ns: int): int {
    ns / MILLISECOND
  }

  /** Clock readings of a trace never go back. */
  ghost predicate Ordered(times: seq<int>) {
    forall i, j :: 0 <= i < j < |times| ==> times[i] <= times[j]
  }

  lemma SubsetCardinality<T>(a: set<T>, b: set<T>)
    requires a <= b
    ensures |a| <= |b|
  {
    assert b == a + (b - a);
  }

  lemma {:induction false} DistinctCount<T>(s: seq<T>)
    requires forall i, j :: 0 <= i < j < |s| ==> s[i] != s[j]
    ensures |set x | x in s| == |s|
  {
    if s != [] {
      var before, last := s[..|s| - 1], s[|s| - 1];
      DistinctCount(before);
      assert s == before + [last];
      assert (set x | x in s) == (set x | x in before) + {last};
    }
  }

  lemma Pick<T>(s: set<T>) returns (x: T)
    requires s != {}
    ensures x in s
  {
    x :| x in s;
  }

  function ImageOf<K, V>(s: set<K>, f: map<K, V>): set<V>
    requires s <= f.Keys
  {
    set k | k in s :: f[k]
  }

  /** The image of a set under a map that is injective on it is as large as the set. */
  lemma {:induction false} InjectiveImage<K, V>(s: set<K>, f: map<K, V>)
    requires s <= f.Keys
    requires forall k, l :: k in s && l in s && k != l ==> f[k] != f[l]
    ensures |ImageOf(s, f)| == |s|
    decreases |s|
  {
    if s != {} {
      var k := Pick(s);
      InjectiveImage(s - {k}, f);
      assert ImageOf(s, f) == ImageOf(s - {k}, f) + {f[k]};
    }
  }
}
