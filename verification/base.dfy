/** Small shared vocabulary: an optional value and an order-preserving filter
    over sequences, used by both the backend store and the frontend roster. */
module Base {

  /** A value that may be absent (Python's `None`, TypeScript's `null`/`undefined`). */
  datatype Option<+T> = None | Some(value: T)

  /** The elements of `s` that satisfy `keep`, in their original order
      (Python's comprehension filter, SQL `WHERE`, JavaScript's `Array.filter`). */
  function Filter<T(==,!new)>(s: seq<T>, keep: T -> bool): (r: seq<T>)
    ensures |r| <= |s|
    ensures forall x :: x in r <==> x in s && keep(x)
    decreases |s|
  {
    if s == [] then []
    else (if keep(s[0]) then [s[0]] else []) + Filter(s[1..], keep)
  }

  /** When every element is kept, the filter is the identity. */
  lemma {:induction false} FilterKeepsAll<T(!new)>(s: seq<T>, keep: T -> bool)
    requires forall i :: 0 <= i < |s| ==> keep(s[i])
    ensures Filter(s, keep) == s
    decreases |s|
  {
    if s != [] {
      assert keep(s[0]);
      FilterKeepsAll(s[1..], keep);
    }
  }

  /** The `n` elements of `s` starting at `skip`, clipped to `s`
      (SQL `OFFSET skip LIMIT n` over an ordered table). */
  function Window<T>(s: seq<T>, skip: nat, limit: nat): (r: seq<T>)
    ensures |r| <= limit
    ensures skip >= |s| ==> r == []
    ensures skip < |s| ==> |r| == (if skip + limit <= |s| then limit else |s| - skip)
    ensures forall i :: 0 <= i < |r| ==> skip + i < |s| && r[i] == s[skip + i]
  {
    var lo := if skip <= |s| then skip else |s|;
    var hi := if lo + limit <= |s| then lo + limit else |s|;
    s[lo..hi]
  }

  /** `rows` with each row whose key equals that of `row` replaced by `row`
      (an update by primary key on an ordered table). */
  function ReplaceByKey<T>(rows: seq<T>, row: T, key: T -> int): (r: seq<T>)
    ensures |r| == |rows|
    ensures forall i :: 0 <= i < |r| ==> r[i] == (if key(rows[i]) == key(row) then row else rows[i])
  {
    seq(|rows|, i requires 0 <= i < |rows| => if key(rows[i]) == key(row) then row else rows[i])
  }

  /** `ok` holds of every pair of elements in increasing position order. */
  predicate Pairwise<T>(s: seq<T>, ok: (T, T) -> bool)
  {
    forall i, j :: 0 <= i < j < |s| ==> ok(s[i], s[j])
  }

  /** Filtering keeps a pairwise property: the result is a subsequence. */
  lemma {:induction false} FilterPairwise<T(!new)>(s: seq<T>, ok: (T, T) -> bool, keep: T -> bool)
    requires Pairwise(s, ok)
    ensures Pairwise(Filter(s, keep), ok)
    decreases |s|
  {
    if s != [] {
      var rest := Filter(s[1..], keep);
      assert Pairwise(s[1..], ok) by {
        forall i, j | 0 <= i < j < |s[1..]| ensures ok(s[1..][i], s[1..][j]) {
          assert s[1..][i] == s[i + 1] && s[1..][j] == s[j + 1];
        }
      }
      FilterPairwise(s[1..], ok, keep);
      if keep(s[0]) {
        var r := [s[0]] + rest;
        forall i, j | 0 <= i < j < |r| ensures ok(r[i], r[j]) {
          if i == 0 {
            assert r[j] == rest[j - 1] && rest[j - 1] in s[1..];
            var k :| 0 <= k < |s[1..]| && s[1..][k] == r[j];
            assert s[k + 1] == r[j];
          } else {
            assert r[i] == rest[i - 1] && r[j] == rest[j - 1];
          }
        }
      } else {
        assert Filter(s, keep) == rest;
      }
    }
  }

  /** Appending an element related to every earlier one keeps a pairwise property. */
  lemma PairwiseAppend<T>(s: seq<T>, x: T, ok: (T, T) -> bool)
    requires Pairwise(s, ok)
    requires forall i :: 0 <= i < |s| ==> ok(s[i], x)
    ensures Pairwise(s + [x], ok)
  {
  }
}
