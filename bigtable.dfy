/** The part of the Bigtable client the decoder sees: rows of cells, the results of
    `ReadRows`, closed row ranges, and the lexicographic order on the characters of row keys. */
module Bigtable {

  /** One cell: column family, column qualifier, value, and timestamp in microseconds
      since the epoch. */
  datatype Cell = Cell(family: string, qualifier: string, value: string, timestamp: int)

  datatype Row = Row(rowKey: string, cells: seq<Cell>)

  /** One element of the stream `ReadRows` returns: a `StatusOr<Row>`. */
  datatype RowResult = Fetched(row: Row) | FailedStatus(message: string)

  /** `cbt::RowRange::Closed(start, end)`: every key k with start <= k <= end. */
  datatype RowRange = Closed(start: string, end: string)

  /** The lexicographic order Bigtable keeps row keys in. */
  predicate KeyLe(a: string, b: string)
    decreases |a|
  {
    a == [] || (b != [] && (a[0] < b[0] || (a[0] == b[0] && KeyLe(a[1..], b[1..]))))
  }

  predicate InRange(key: string, r: RowRange)
  {
    KeyLe(r.start, key) && KeyLe(key, r.end)
  }

  /** First character of a string as `std::string::operator[](0)` gives it: the
      terminating '\0' when the string is empty. */
  function Head(s: string): (c: char)
    ensures |s| > 0 ==> c == s[0]
    ensures |s| == 0 ==> c == 0 as char
  {
    if |s| > 0 then s[0] else 0 as char
  }

  /** A key is at or above each of its prefixes. */
  lemma {:induction false} PrefixKeyLe(p: string, s: string)
    requires p <= s
    ensures KeyLe(p, s)
    decreases |p|
  {
    if p != [] {
      PrefixKeyLe(p[1..], s[1..]);
    }
  }

  /** Two keys that agree before position k, where the first has the smaller character. */
  lemma {:induction false} DiffAtKeyLe(a: string, b: string, k: nat)
    requires k < |a| && k < |b|
    requires a[..k] == b[..k] && a[k] < b[k]
    ensures KeyLe(a, b)
    decreases k
  {
    if k > 0 {
      assert a[1..][..k - 1] == a[..k][1..];
      assert b[1..][..k - 1] == b[..k][1..];
      DiffAtKeyLe(a[1..], b[1..], k - 1);
    }
  }

  /** Keys built from a common front `p`, then two pieces that first differ at
      position k with the first one smaller there, then any tails. */
  lemma ConcatDiffKeyLe(p: string, a: string, x: string, b: string, y: string, k: nat)
    requires k < |a| && k < |b|
    requires a[..k] == b[..k] && a[k] < b[k]
    ensures KeyLe(p + a + x, p + b + y)
  {
    var s, t := p + a + x, p + b + y;
    assert s[..|p| + k] == p + a[..k];
    assert t[..|p| + k] == p + b[..k];
    DiffAtKeyLe(s, t, |p| + k);
  }

  /** Any key between two keys that share a prefix has that prefix too. */
  lemma {:induction false} BetweenSharesPrefix(p: string, lo: string, s: string, hi: string)
    requires p <= lo && p <= hi
    requires KeyLe(lo, s) && KeyLe(s, hi)
    ensures p <= s
    decreases |p|
  {
    if p != [] {
      assert lo != [] && hi != [];
      assert s != [];
      assert s[0] == p[0];
      BetweenSharesPrefix(p[1..], lo[1..], s[1..], hi[1..]);
    }
  }
}
